/** Choosing one route for every service id: the one of highest priority. */
module RouteFilter {
  import opened Strings
  import opened Domain

  // ---------- priority ----------

  const MAX_INT: int := 0x7FFF_FFFF_FFFF_FFFF
  const MIN_INT: int := -0x8000_0000_0000_0000
  const UNSIGNED_LIMIT: nat := 0x1_0000_0000_0000_0000

  datatype Atoi = Atoi(value: int, failed: bool)

  function ParseUnsigned(text: string, negative: bool): Atoi {
    if text == [] then Atoi(0, true)
    else
      match ScanDigits(text, 0)
      case NoNumber => Atoi(0, true)
      case TooBig => Atoi(if negative then MIN_INT else MAX_INT, true)
      case Number(n) =>
        var value: int := if negative then 0 - n else n;
        if value < MIN_INT then Atoi(MIN_INT, true) else if value > MAX_INT then Atoi(MAX_INT, true)
            else Atoi(value, false)
  }

  /** `strconv.Atoi` with 64-bit integers: a number out of range fails with the nearest bound as its value. */
  function ParseInt(text: string): Atoi {
    if text != [] && text[0] == '-' then ParseUnsigned(text[1..], true)
    else if text != [] && text[0] == '+' then ParseUnsigned(text[1..], false)
    else ParseUnsigned(text, false)
  }

  function Printed(n: int): string { if n < 0 then "-" + Itoa(-n) else Itoa(n) }

  function GetPriority(route: Route): int {
    if route.IsGeneral() then -1
    else if SERVICE_ORDER in route.metadata.annotations then
      var parsed := ParseInt(route.metadata.annotations[SERVICE_ORDER]);
      if parsed.failed then parsed.value else 0
    else 0
  }

  // ---------- what an order annotation does ----------

  predicate AllDigits(text: string) { forall i | 0 <= i < |text| :: IsDigit(text[i]) }

  /** The decimal number that the digits of `text` continue from `n`. */
  function Value(text: string, n: nat): nat
    requires AllDigits(text)
  {
    if text == [] then n else Value(text[1..], 10 * n + (text[0] as int - '0' as int))
  }

  /** `text` begins with digits that already make a number of 2^64 or more. */
  ghost predicate StartsTooBig(text: string, n: nat) {
    exists k: nat :: k <= |text| && AllDigits(text[..k]) && Value(text[..k], n) >= UNSIGNED_LIMIT
  }

  lemma {:induction false} ValueGrows(text: string, n: nat)
    requires AllDigits(text)
    ensures Value(text, n) >= n
  {
    if text != [] { ValueGrows(text[1..], 10 * n + (text[0] as int - '0' as int)); }
  }

  lemma StartsTooBigStep(text: string, n: nat)
    requires text != [] && n < UNSIGNED_LIMIT && IsDigit(text[0])
    ensures StartsTooBig(text, n) <==> StartsTooBig(text[1..], 10 * n + (text[0] as int - '0' as int))
  {
    var m := 10 * n + (text[0] as int - '0' as int);
    if k: nat :| k <= |text| && AllDigits(text[..k]) && Value(text[..k], n) >= UNSIGNED_LIMIT {
      assert text[..k][1..] == text[1..][..k - 1];
      assert AllDigits(text[1..][..k - 1]) && Value(text[1..][..k - 1], m) >= UNSIGNED_LIMIT;
    }
    if k: nat :| k <= |text[1..]| && AllDigits(text[1..][..k]) && Value(text[1..][..k], m) >= UNSIGNED_LIMIT {
      assert text[..k + 1] == [text[0]] + text[1..][..k] && text[..k + 1][1..] == text[1..][..k];
      assert AllDigits(text[..k + 1]) && Value(text[..k + 1], n) >= UNSIGNED_LIMIT;
    }
  }

  /** What scanning ends in, said of the text as a whole. */
  lemma {:induction false} ScanDecides(text: string, n: nat)
    requires n < UNSIGNED_LIMIT
    ensures ScanDigits(text, n) ==
              if StartsTooBig(text, n) then TooBig else if AllDigits(text) then Number(Value(text, n)) else NoNumber
  {
    if text == [] {
      assert forall k: nat | k <= 0 :: text[..k] == [];
    } else if !IsDigit(text[0]) {
      assert forall k: nat | 0 < k <= |text| :: !AllDigits(text[..k]) by {
        assert forall k: nat | 0 < k <= |text| :: text[..k][0] == text[0];
      }
      assert text[..0] == [];
    } else {
      var m := 10 * n + (text[0] as int - '0' as int);
      StartsTooBigStep(text, n);
      assert AllDigits(text) <==> AllDigits(text[1..]) by {
        assert forall i | 0 < i < |text| :: text[i] == text[1..][i - 1];
      }
      if m < UNSIGNED_LIMIT {
        ScanDecides(text[1..], m);
      } else {
        assert text[1..][..0] == [] && AllDigits(text[1..][..0]) && Value(text[1..][..0], m) >= UNSIGNED_LIMIT;
      }
    }
  }

  predicate IsNegative(text: string) { text != [] && text[0] == '-' }

  /** The text behind one optional sign. */
  function Unsigned(text: string): string {
    if text != [] && (text[0] == '-' || text[0] == '+') then text[1..] else text
  }

  /** An optional sign and at least one digit. */
  predicate IsNumber(text: string) { Unsigned(text) != [] && AllDigits(Unsigned(text)) }

  function NumberOf(text: string): int
    requires IsNumber(text)
  {
    if IsNegative(text) then 0 - Value(Unsigned(text), 0) else Value(Unsigned(text), 0)
  }

  /** A 64-bit integer. */
  predicate Fits(n: int) { -0x8000_0000_0000_0000 <= n <= 0x7FFF_FFFF_FFFF_FFFF }

  /**
   * After its sign the text starts with 2^64 or more, whatever follows, or it is a number that does not fit 64 bits.
   */
  ghost predicate IsOutOfRange(text: string) {
    StartsTooBig(Unsigned(text), 0) || (IsNumber(text) && !Fits(NumberOf(text)))
  }

  lemma ParseDecides(text: string)
    ensures ParseInt(text) ==
              if IsOutOfRange(text) then Atoi(if IsNegative(text) then MIN_INT else MAX_INT, true)
              else if IsNumber(text) then Atoi(NumberOf(text), false) else Atoi(0, true)
  {
    var digits := Unsigned(text);
    ScanDecides(digits, 0);
    if StartsTooBig(digits, 0) {
      var k: nat :| k <= |digits| && AllDigits(digits[..k]) && Value(digits[..k], 0) >= UNSIGNED_LIMIT;
      assert digits != [];
    }
  }

  /** Printing a number and parsing it gives it back, and it is the number its text stands for. */
  lemma ParseOfPrinted(n: int)
    requires MIN_INT <= n <= MAX_INT
    ensures ParseInt(Printed(n)) == Atoi(n, false)
    ensures IsNumber(Printed(n)) && NumberOf(Printed(n)) == n
  {
    ScanOfItoa(if n < 0 then -n else n);
    var digits := Itoa(if n < 0 then -n else n);
    assert digits[0] in digits;
    assert n < 0 ==> Printed(n)[1..] == digits;
    ParseDecides(Printed(n));
  }

  /** The route is not GENERAL and has an order annotation. */
  predicate HasOrder(route: Route) {
    var annotations := route.metadata.annotations;
    && "netcracker.cloud/tenant.service.order" in annotations
    && ("netcracker.cloud/tenant.service.tenant.id" !in annotations
        || annotations["netcracker.cloud/tenant.service.tenant.id"] != "GENERAL")
  }

  function Order(route: Route): string
    requires HasOrder(route)
  {
    route.metadata.annotations["netcracker.cloud/tenant.service.order"]
  }

  /** An order acts if and only if its text is out of range, and then it counts as the bound its sign points to. */
  lemma OrderActsIff(route: Route)
    requires HasOrder(route)
    ensures GetPriority(route) != 0 <==> IsOutOfRange(Order(route))
    ensures GetPriority(route) != 0 ==> GetPriority(route) == if IsNegative(Order(route)) then MIN_INT else MAX_INT
  {
    ParseDecides(Order(route));
  }

  /** An order that fits 64 bits makes no difference, however it is written. */
  lemma OrderIsIgnored(route: Route)
    requires HasOrder(route) && IsNumber(Order(route)) && Fits(NumberOf(Order(route)))
    ensures GetPriority(route) == 0
  {
    OrderActsIff(route);
    FittingStartsSmall(Order(route));
  }

  /** A number that fits does not start with one that is too big. */
  lemma FittingStartsSmall(text: string)
    requires IsNumber(text) && Fits(NumberOf(text))
    ensures !IsOutOfRange(text)
  {
    var digits := Unsigned(text);
    if k: nat :| k <= |digits| && AllDigits(digits[..k]) && Value(digits[..k], 0) >= UNSIGNED_LIMIT {
      ValueOfPrefix(digits, k, 0);
    }
  }

  lemma {:induction false} ValueOfPrefix(digits: string, k: nat, n: nat)
    requires AllDigits(digits) && k <= |digits|
    ensures AllDigits(digits[..k]) && Value(digits[..k], n) <= Value(digits, n)
  {
    if k == 0 {
      ValueGrows(digits, n);
    } else {
      ValueOfPrefix(digits[1..], k - 1, 10 * n + (digits[0] as int - '0' as int));
      assert digits[..k][1..] == digits[1..][..k - 1];
    }
  }

  /** Below, within and above the 64-bit integers. */
  function Band(n: int): int {
    if n < -0x8000_0000_0000_0000 then -1 else if n > 0x7FFF_FFFF_FFFF_FFFF then 1 else 0
  }

  /**
   * Orders should sort routes as their numbers do. They do so if and only if the numbers are equal or fall into
   * different bands, that is, at least one of them does not fit 64 bits and not both lie beyond the same bound.
   */
  lemma OrderedAsNumbersIff(a: Route, b: Route)
    requires HasOrder(a) && IsNumber(Order(a)) && HasOrder(b) && IsNumber(Order(b))
    ensures var m, n := NumberOf(Order(a)), NumberOf(Order(b));
            ((GetPriority(a) > GetPriority(b) <==> m > n) && (GetPriority(b) > GetPriority(a) <==> n > m))
            <==> m == n || Band(m) != Band(n)
  {
    PriorityOfNumber(a);
    PriorityOfNumber(b);
  }

  lemma PriorityOfNumber(route: Route)
    requires HasOrder(route) && IsNumber(Order(route))
    ensures var n := NumberOf(Order(route));
            GetPriority(route) == if Band(n) < 0 then MIN_INT else if Band(n) > 0 then MAX_INT else 0
  {
    OrderActsIff(route);
    if Fits(NumberOf(Order(route))) { FittingStartsSmall(Order(route)); }
  }

  lemma FourPriorities(route: Route)
    ensures GetPriority(route) in {-1, 0, MAX_INT, MIN_INT}
    ensures GetPriority(route) == -1 <==>
              "netcracker.cloud/tenant.service.tenant.id" in route.metadata.annotations
              && route.metadata.annotations["netcracker.cloud/tenant.service.tenant.id"] == "GENERAL"
  {
  }

  // ---------- grouping ----------

  function GetServiceId(route: Route): string {
    if SERVICE_ID in route.metadata.annotations then route.metadata.annotations[SERVICE_ID] else route.service
  }

  /** A route goes by its annotation, and by its service's name without one. */
  lemma ServiceIdIs(route: Route, id: string)
    ensures GetServiceId(route) == id <==>
              if "netcracker.cloud/tenant.service.id" in route.metadata.annotations
              then route.metadata.annotations["netcracker.cloud/tenant.service.id"] == id else route.service == id
  {
  }

  function OfService(routes: seq<Route>, id: string): seq<Route> {
    if routes == [] then []
    else OfService(routes[..|routes| - 1], id) +
         (if GetServiceId(routes[|routes| - 1]) == id then [routes[|routes| - 1]] else [])
  }

  /** Some route has this service id. */
  ghost predicate Represents(routes: seq<Route>, id: string) {
    exists route <- routes :: GetServiceId(route) == id
  }

  type Groups = map<string, seq<Route>>

  ghost predicate IsDescending(routes: seq<Route>) {
    forall i, j | 0 <= i < j < |routes| :: GetPriority(routes[i]) >= GetPriority(routes[j])
  }

  lemma InsertAt(sorted: seq<Route>, i: nat, route: Route)
    requires IsDescending(sorted) && i <= |sorted|
    requires forall j | 0 <= j < i :: GetPriority(sorted[j]) >= GetPriority(route)
    requires i < |sorted| ==> GetPriority(route) >= GetPriority(sorted[i])
    ensures IsDescending(sorted[..i] + [route] + sorted[i..])
  {
    var more := sorted[..i] + [route] + sorted[i..];
    forall p, q | 0 <= p < q < |more| ensures GetPriority(more[p]) >= GetPriority(more[q]) {
      var a, b := if p < i then sorted[p] else if p == i then route else sorted[p - 1],
                  if q < i then sorted[q] else if q == i then route else sorted[q - 1];
      assert more[p] == a && more[q] == b;
    }
  }

  method InsertByPriority(route: Route, sorted: seq<Route>) returns (more: seq<Route>)
    requires IsDescending(sorted)
    ensures IsDescending(more) && multiset(more) == multiset(sorted) + multiset{route}
  {
    var i := 0;
    while i < |sorted| && GetPriority(sorted[i]) > GetPriority(route)
      invariant 0 <= i <= |sorted|
      invariant forall j | 0 <= j < i :: GetPriority(sorted[j]) >= GetPriority(route)
    {
      i := i + 1;
    }
    InsertAt(sorted, i, route);
    assert sorted == sorted[..i] + sorted[i..];
    return sorted[..i] + [route] + sorted[i..];
  }

  /** Stands for the library sort: its contract leaves the order of equal priorities open. */
  method SortByPriority(routes: seq<Route>) returns (sorted: seq<Route>)
    ensures IsDescending(sorted) && multiset(sorted) == multiset(routes)
  {
    sorted := [];
    for i := 0 to |routes|
      invariant IsDescending(sorted) && multiset(sorted) == multiset(routes[..i])
    {
      assert routes[..i + 1] == routes[..i] + [routes[i]];
      sorted := InsertByPriority(routes[i], sorted);
    }
    assert routes[..|routes|] == routes;
  }

  /** The groups hold every route once, under its own service id. */
  ghost predicate AreGroups(routes: seq<Route>, groups: Groups) {
    && (forall id :: id in groups <==> Represents(routes, id))
    && (forall id | id in groups :: multiset(groups[id]) == multiset(OfService(routes, id)))
  }

  /** In addition every group lists its routes by descending priority. */
  ghost predicate AreSortedGroups(routes: seq<Route>, groups: Groups) {
    && AreGroups(routes, groups)
    && (forall id | id in groups :: IsDescending(groups[id]))
  }

  lemma ReorderOneGroup(routes: seq<Route>, groups: Groups, id: string, group: seq<Route>)
    requires AreGroups(routes, groups) && id in groups && multiset(group) == multiset(groups[id])
    ensures AreGroups(routes, groups[id := group])
  {
  }

  function GroupOf(groups: Groups, id: string): seq<Route> { if id in groups then groups[id] else [] }

  lemma OfServiceStep(routes: seq<Route>, route: Route, id: string)
    ensures OfService(routes + [route], id) ==
              OfService(routes, id) + (if GetServiceId(route) == id then [route] else [])
  {
    assert (routes + [route])[..|routes|] == routes;
  }

  method GroupByService(routes: seq<Route>) returns (groups: Groups)
    ensures forall id :: GroupOf(groups, id) == OfService(routes, id)
    ensures forall id | id in groups :: groups[id] != []
  {
    groups := map[];
    for i := 0 to |routes|
      invariant forall id :: GroupOf(groups, id) == OfService(routes[..i], id)
      invariant forall id | id in groups :: groups[id] != []
    {
      ghost var before := groups;
      var key := GetServiceId(routes[i]);
      groups := groups[key := (if key in groups then groups[key] else []) + [routes[i]]];
      assert routes[..i + 1] == routes[..i] + [routes[i]];
      forall id ensures GroupOf(groups, id) == OfService(routes[..i + 1], id) {
        OfServiceStep(routes[..i], routes[i], id);
        assert GroupOf(before, id) == OfService(routes[..i], id);
      }
    }
    assert routes[..|routes|] == routes;
  }

  method BuildSortedMapFromRoutes(routes: seq<Route>) returns (groups: Groups)
    ensures AreSortedGroups(routes, groups)
  {
    groups := GroupByService(routes);
    GroupsHoldServices(routes, groups);
    var ids := groups.Keys;
    while ids != {}
      invariant ids <= groups.Keys
      invariant AreGroups(routes, groups)
      invariant forall id | id in groups && id !in ids :: IsDescending(groups[id])
      decreases ids
    {
      var id :| id in ids;
      var sorted := SortByPriority(groups[id]);
      ReorderOneGroup(routes, groups, id, sorted);
      groups := groups[id := sorted];
      ids := ids - {id};
    }
  }

  lemma GroupsHoldServices(routes: seq<Route>, groups: Groups)
    requires forall id :: GroupOf(groups, id) == OfService(routes, id)
    requires forall id | id in groups :: groups[id] != []
    ensures AreGroups(routes, groups)
  {
    forall id ensures id in groups <==> Represents(routes, id) {
      assert GroupOf(groups, id) == OfService(routes, id);
      OfServiceIsEmpty(routes, id);
    }
    forall id | id in groups ensures groups[id] == OfService(routes, id) {
      assert GroupOf(groups, id) == OfService(routes, id);
    }
  }

  lemma {:induction false} OfServiceMembers(routes: seq<Route>, id: string)
    ensures forall route :: multiset(OfService(routes, id))[route] ==
              if GetServiceId(route) == id then multiset(routes)[route] else 0
  {
    if routes != [] {
      OfServiceMembers(routes[..|routes| - 1], id);
      assert routes == routes[..|routes| - 1] + [routes[|routes| - 1]];
    }
  }

  lemma OfServiceIsEmpty(routes: seq<Route>, id: string)
    ensures OfService(routes, id) == [] <==> !Represents(routes, id)
  {
    OfServiceMembers(routes, id);
    if OfService(routes, id) != [] {
      var route := OfService(routes, id)[0];
      assert route in multiset(OfService(routes, id)) && route in multiset(routes);
      assert route in routes && GetServiceId(route) == id;
    }
    if Represents(routes, id) {
      var route :| route in routes && GetServiceId(route) == id;
      assert multiset(OfService(routes, id))[route] == multiset(routes)[route];
      assert route in multiset(OfService(routes, id));
    }
  }

  /** Every route is in exactly one group, as often as it was given. */
  lemma GroupsPartition(routes: seq<Route>, groups: Groups, route: Route, id: string)
    requires AreSortedGroups(routes, groups) && id in groups
    ensures multiset(groups[id])[route] == if GetServiceId(route) == id then multiset(routes)[route] else 0
    ensures route in routes ==> GetServiceId(route) in groups
  {
    OfServiceMembers(routes, id);
  }

  // ---------- the filter ----------

  /** No route of the same service id comes before `route`. */
  ghost predicate IsBest(route: Route, routes: seq<Route>) {
    && route in routes
    && forall other <- routes | GetServiceId(other) == GetServiceId(route) :: GetPriority(other) <= GetPriority(route)
  }

  ghost predicate AllBest(chosen: seq<Route>, routes: seq<Route>) {
    forall route <- chosen :: IsBest(route, routes)
  }

  lemma HeadIsBest(routes: seq<Route>, groups: Groups, id: string)
    requires AreSortedGroups(routes, groups) && id in groups
    ensures |groups[id]| > 0 && GetServiceId(groups[id][0]) == id && IsBest(groups[id][0], routes)
  {
    OfServiceMembers(routes, id);
    forall route ensures route in multiset(groups[id]) <==> route in routes && GetServiceId(route) == id {
      assert multiset(groups[id])[route] == multiset(OfService(routes, id))[route];
      assert route in routes <==> route in multiset(routes);
    }
    var some :| some in routes && GetServiceId(some) == id;
    assert some in multiset(groups[id]);
    forall other | other in routes && GetServiceId(other) == id
      ensures GetPriority(other) <= GetPriority(groups[id][0])
    {
      assert other in multiset(groups[id]);
      var j :| 0 <= j < |groups[id]| && groups[id][j] == other;
    }
    assert groups[id][0] in multiset(groups[id]);
  }

  ghost predicate DistinctServices(routes: seq<Route>) {
    forall i, j | 0 <= i < j < |routes| :: GetServiceId(routes[i]) != GetServiceId(routes[j])
  }

  /** `chosen` holds the best route of each service id in `ids`, once. */
  ghost predicate ChosenFor(chosen: seq<Route>, ids: set<string>, routes: seq<Route>) {
    && AllBest(chosen, routes) && DistinctServices(chosen)
    && (forall id :: Represents(chosen, id) <==> id in ids)
  }

  lemma ChooseOneMore(chosen: seq<Route>, ids: set<string>, routes: seq<Route>, route: Route)
    requires ChosenFor(chosen, ids, routes) && GetServiceId(route) !in ids && IsBest(route, routes)
    ensures ChosenFor(chosen + [route], ids + {GetServiceId(route)}, routes)
  {
    assert !Represents(chosen, GetServiceId(route));
    forall id ensures Represents(chosen + [route], id) <==> Represents(chosen, id) || id == GetServiceId(route) {
      assert (chosen + [route])[|chosen|] == route;
      assert forall r :: r in chosen + [route] <==> r in chosen || r == route;
    }
  }

  ghost predicate LedByBest(group: seq<Route>, id: string, routes: seq<Route>) {
    |group| > 0 && GetServiceId(group[0]) == id && IsBest(group[0], routes)
  }

  /** The first route of every group, in any order of the groups. */
  method FirstOfEach(groups: Groups, ghost routes: seq<Route>) returns (firsts: seq<Route>)
    requires forall id | id in groups :: LedByBest(groups[id], id, routes)
    ensures ChosenFor(firsts, groups.Keys, routes)
  {
    firsts := [];
    var ids := groups.Keys;
    while ids != {}
      invariant ids <= groups.Keys
      invariant ChosenFor(firsts, groups.Keys - ids, routes)
      decreases ids
    {
      var id :| id in ids;
      assert LedByBest(groups[id], id, routes);
      ChooseOneMore(firsts, groups.Keys - ids, routes, groups[id][0]);
      assert groups.Keys - (ids - {id}) == groups.Keys - ids + {id};
      firsts := firsts + [groups[id][0]];
      ids := ids - {id};
    }
    assert groups.Keys - ids == groups.Keys;
  }

  /** One route per distinct service id, the best of its id. */
  method FilterRoutes(routes: seq<Route>) returns (filtered: seq<Route>)
    ensures AllBest(filtered, routes) && DistinctServices(filtered)
    ensures forall id :: Represents(filtered, id) <==> Represents(routes, id)
  {
    var groups := BuildSortedMapFromRoutes(routes);
    forall id | id in groups ensures LedByBest(groups[id], id, routes) {
      HeadIsBest(routes, groups, id);
    }
    filtered := FirstOfEach(groups, routes);
  }

  /** A GENERAL route is chosen only when every other route of its service is GENERAL too or has the lowest order. */
  lemma GeneralChosenLast(chosen: Route, other: Route, routes: seq<Route>)
    requires IsBest(chosen, routes) && chosen.IsGeneral()
    requires other in routes && GetServiceId(other) == GetServiceId(chosen)
    ensures GetPriority(other) <= -1
    ensures other.IsGeneral() || GetPriority(other) == MIN_INT
  {
    FourPriorities(other);
  }
}
