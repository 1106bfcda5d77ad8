/** Gateway API objects, their conversion to routes, and the route cache fed by lists and by watch events. */
module Gateway {
  import opened Strings
  import opened Domain
  import opened SyncPass

  const HTTP_ROUTE: string := "HTTPRoute"
  const GRPC_ROUTE: string := "GRPCRoute"
  const DEFAULT_HTTP_PORT: int := 8080

  datatype Backend = Backend(name: string, port: Option<int>)
  datatype HttpRule = HttpRule(matches: seq<Option<string>>, backends: seq<Backend>)
  datatype GrpcRule = GrpcRule(backends: seq<Backend>)

  /** What a watch reports on: a native route, which converts to itself, or a gateway object, which fans out. */
  datatype Object =
    | NativeObject(route: Route)
    | HttpObject(name: string, namespace: string, annotations: map<string, string>, hostnames: seq<string>,
                 httpRules: seq<HttpRule>)
    | GrpcObject(name: string, namespace: string, annotations: map<string, string>, hostnames: seq<string>,
                 grpcRules: seq<GrpcRule>)

  // ---------- conversion, as a specification ----------

  /** No host name stands for one empty host. */
  function HostsOf(hostnames: seq<string>): (hosts: seq<string>)
    ensures |hosts| == if |hostnames| == 0 then 1 else |hostnames|
  {
    if hostnames == [] then [""] else hostnames
  }

  function BuildRoute(o: Object, kind: string, host: string, path: string, backend: string, port: int): Route
    requires !o.NativeObject?
  {
    Route(Metadata(kind, o.name, o.namespace, o.annotations), host, path, backend, port)
  }

  function HttpRoute(o: Object, path: Option<string>, backend: Backend, host: string): Route
    requires o.HttpObject?
  {
    BuildRoute(o, HTTP_ROUTE, host, if path.Some? then path.value else "", backend.name,
               if backend.port.Some? then backend.port.value else DEFAULT_HTTP_PORT)
  }

  function HttpHosts(o: Object, path: Option<string>, backend: Backend, hosts: seq<string>): seq<Route>
    requires o.HttpObject?
  {
    seq(|hosts|, i requires 0 <= i < |hosts| => HttpRoute(o, path, backend, hosts[i]))
  }

  function HttpBackends(o: Object, path: Option<string>, backends: seq<Backend>): seq<Route>
    requires o.HttpObject?
  {
    if backends == [] then []
    else HttpBackends(o, path, backends[..|backends| - 1]) + HttpHosts(o, path, backends[|backends| - 1],
        HostsOf(o.hostnames))
  }

  function HttpMatches(o: Object, matches: seq<Option<string>>, backends: seq<Backend>): seq<Route>
    requires o.HttpObject?
  {
    if matches == [] then []
    else HttpMatches(o, matches[..|matches| - 1], backends) + HttpBackends(o, matches[|matches| - 1], backends)
  }

  function HttpRules(o: Object, rules: seq<HttpRule>): seq<Route>
    requires o.HttpObject?
  {
    if rules == [] then []
    else
      var last := rules[|rules| - 1];
      HttpRules(o, rules[..|rules| - 1]) + HttpMatches(o, last.matches, last.backends)
  }

  function GrpcRoute(o: Object, backend: Backend, host: string): Route
    requires o.GrpcObject?
  {
    BuildRoute(o, GRPC_ROUTE, host, "/", backend.name, if backend.port.Some? then backend.port.value else 0)
  }

  function GrpcHosts(o: Object, backend: Backend, hosts: seq<string>): seq<Route>
    requires o.GrpcObject?
  {
    seq(|hosts|, i requires 0 <= i < |hosts| => GrpcRoute(o, backend, hosts[i]))
  }

  function GrpcBackends(o: Object, backends: seq<Backend>): seq<Route>
    requires o.GrpcObject?
  {
    if backends == [] then []
    else GrpcBackends(o, backends[..|backends| - 1]) + GrpcHosts(o, backends[|backends| - 1], HostsOf(o.hostnames))
  }

  function GrpcRules(o: Object, rules: seq<GrpcRule>): seq<Route>
    requires o.GrpcObject?
  {
    if rules == [] then []
    else GrpcRules(o, rules[..|rules| - 1]) + GrpcBackends(o, rules[|rules| - 1].backends)
  }

  function Convert(o: Object): seq<Route> {
    match o
    case NativeObject(route) => [route]
    case HttpObject(_, _, _, _, rules) => HttpRules(o, rules)
    case GrpcObject(_, _, _, _, rules) => GrpcRules(o, rules)
  }

  function ConvertAll(objects: seq<Object>): seq<Route> {
    if objects == [] then [] else ConvertAll(objects[..|objects| - 1]) + Convert(objects[|objects| - 1])
  }

  // ---------- conversion, as the nested loops that run ----------

  method ConvertHTTPRoutes(objects: seq<Object>) returns (result: seq<Route>)
    requires forall o <- objects :: o.HttpObject?
    ensures result == ConvertAll(objects)
  {
    result := [];
    for i := 0 to |objects|
      invariant result == ConvertAll(objects[..i])
    {
      var o := objects[i];
      var converted := ConvertHTTPRoute(o);
      result := result + converted;
      assert objects[..i + 1][..i] == objects[..i];
    }
    assert objects[..|objects|] == objects;
  }

  method ConvertHTTPRoute(o: Object) returns (result: seq<Route>)
    requires o.HttpObject?
    ensures result == Convert(o)
  {
    result := [];
    for j := 0 to |o.httpRules|
      invariant result == HttpRules(o, o.httpRules[..j])
    {
      var converted := ConvertHTTPRule(o, o.httpRules[j]);
      result := result + converted;
      assert o.httpRules[..j + 1][..j] == o.httpRules[..j];
    }
    assert o.httpRules[..|o.httpRules|] == o.httpRules;
  }

  method ConvertHTTPRule(o: Object, rule: HttpRule) returns (result: seq<Route>)
    requires o.HttpObject?
    ensures result == HttpMatches(o, rule.matches, rule.backends)
  {
    result := [];
    for m := 0 to |rule.matches|
      invariant result == HttpMatches(o, rule.matches[..m], rule.backends)
    {
      var converted := ConvertHTTPMatch(o, rule.matches[m], rule.backends);
      result := result + converted;
      assert rule.matches[..m + 1][..m] == rule.matches[..m];
    }
    assert rule.matches[..|rule.matches|] == rule.matches;
  }

  method ConvertHTTPMatch(o: Object, matchPath: Option<string>, backends: seq<Backend>) returns (result: seq<Route>)
    requires o.HttpObject?
    ensures result == HttpBackends(o, matchPath, backends)
  {
    var hostnames := if |o.hostnames| == 0 then [""] else o.hostnames;
    var path := "";
    if matchPath.Some? { path := matchPath.value; }
    result := [];
    for b := 0 to |backends|
      invariant result == HttpBackends(o, matchPath, backends[..b])
    {
      var port := DEFAULT_HTTP_PORT;
      if backends[b].port.Some? { port := backends[b].port.value; }
      var converted: seq<Route> := [];
      for h := 0 to |hostnames|
        invariant converted == HttpHosts(o, matchPath, backends[b], hostnames[..h])
      {
        converted := converted + [BuildRoute(o, HTTP_ROUTE, hostnames[h], path, backends[b].name, port)];
      }
      assert hostnames[..|hostnames|] == HostsOf(o.hostnames);
      result := result + converted;
      assert backends[..b + 1][..b] == backends[..b];
    }
    assert backends[..|backends|] == backends;
  }

  method ConvertGRPCRoutes(objects: seq<Object>) returns (result: seq<Route>)
    requires forall o <- objects :: o.GrpcObject?
    ensures result == ConvertAll(objects)
  {
    result := [];
    for i := 0 to |objects|
      invariant result == ConvertAll(objects[..i])
    {
      var o := objects[i];
      var converted := ConvertGRPCRoute(o);
      result := result + converted;
      assert objects[..i + 1][..i] == objects[..i];
    }
    assert objects[..|objects|] == objects;
  }

  method ConvertGRPCRoute(o: Object) returns (result: seq<Route>)
    requires o.GrpcObject?
    ensures result == Convert(o)
  {
    result := [];
    for j := 0 to |o.grpcRules|
      invariant result == GrpcRules(o, o.grpcRules[..j])
    {
      var converted := ConvertGRPCRule(o, o.grpcRules[j].backends);
      result := result + converted;
      assert o.grpcRules[..j + 1][..j] == o.grpcRules[..j];
    }
    assert o.grpcRules[..|o.grpcRules|] == o.grpcRules;
  }

  method ConvertGRPCRule(o: Object, backends: seq<Backend>) returns (result: seq<Route>)
    requires o.GrpcObject?
    ensures result == GrpcBackends(o, backends)
  {
    var hostnames := if |o.hostnames| == 0 then [""] else o.hostnames;
    result := [];
    for b := 0 to |backends|
      invariant result == GrpcBackends(o, backends[..b])
    {
      var port := 0;
      if backends[b].port.Some? { port := backends[b].port.value; }
      var converted: seq<Route> := [];
      for h := 0 to |hostnames|
        invariant converted == GrpcHosts(o, backends[b], hostnames[..h])
      {
        converted := converted + [BuildRoute(o, GRPC_ROUTE, hostnames[h], "/", backends[b].name, port)];
      }
      assert hostnames[..|hostnames|] == HostsOf(o.hostnames);
      result := result + converted;
      assert backends[..b + 1][..b] == backends[..b];
    }
    assert backends[..|backends|] == backends;
  }

  // ---------- how many routes, which routes, and under which key ----------

  function HttpFanOut(rules: seq<HttpRule>): nat {
    if rules == [] then 0
    else HttpFanOut(rules[..|rules| - 1]) + |rules[|rules| - 1].matches| * |rules[|rules| - 1].backends|
  }

  function GrpcFanOut(rules: seq<GrpcRule>): nat {
    if rules == [] then 0 else GrpcFanOut(rules[..|rules| - 1]) + |rules[|rules| - 1].backends|
  }

  /** One route per rule, match, backend and host, where no host name counts as one. */
  lemma ConversionCount(o: Object)
    ensures o.HttpObject? ==> |Convert(o)| == HttpFanOut(o.httpRules) * (if o.hostnames == [] then 1 else |o.hostnames|)
    ensures o.GrpcObject? ==> |Convert(o)| == GrpcFanOut(o.grpcRules) * (if o.hostnames == [] then 1 else |o.hostnames|)
  {
    if o.HttpObject? { HttpRulesCount(o, o.httpRules); }
    if o.GrpcObject? { GrpcRulesCount(o, o.grpcRules); }
  }

  lemma {:induction false} HttpRulesCount(o: Object, rules: seq<HttpRule>)
    requires o.HttpObject?
    ensures |HttpRules(o, rules)| == HttpFanOut(rules) * |HostsOf(o.hostnames)|
  {
    if rules != [] {
      var last, h := rules[|rules| - 1], |HostsOf(o.hostnames)|;
      HttpRulesCount(o, rules[..|rules| - 1]);
      HttpMatchesCount(o, last.matches, last.backends);
      Distribute(HttpFanOut(rules[..|rules| - 1]), |last.matches| * |last.backends|, h);
    }
  }

  lemma Distribute(a: int, b: int, h: int)
    ensures (a + b) * h == a * h + b * h
  {
  }

  lemma {:induction false} HttpMatchesCount(o: Object, matches: seq<Option<string>>, backends: seq<Backend>)
    requires o.HttpObject?
    ensures |HttpMatches(o, matches, backends)| == |matches| * |backends| * |HostsOf(o.hostnames)|
  {
    if matches != [] {
      HttpMatchesCount(o, matches[..|matches| - 1], backends);
      HttpBackendsCount(o, matches[|matches| - 1], backends);
      Distribute(|matches| - 1, 1, |backends|);
      Distribute((|matches| - 1) * |backends|, |backends|, |HostsOf(o.hostnames)|);
    }
  }

  lemma {:induction false} HttpBackendsCount(o: Object, path: Option<string>, backends: seq<Backend>)
    requires o.HttpObject?
    ensures |HttpBackends(o, path, backends)| == |backends| * |HostsOf(o.hostnames)|
  {
    if backends != [] {
      HttpBackendsCount(o, path, backends[..|backends| - 1]);
      Distribute(|backends| - 1, 1, |HostsOf(o.hostnames)|);
    }
  }

  lemma {:induction false} GrpcRulesCount(o: Object, rules: seq<GrpcRule>)
    requires o.GrpcObject?
    ensures |GrpcRules(o, rules)| == GrpcFanOut(rules) * |HostsOf(o.hostnames)|
  {
    if rules != [] {
      var last := rules[|rules| - 1];
      GrpcRulesCount(o, rules[..|rules| - 1]);
      GrpcBackendsCount(o, last.backends);
      Distribute(GrpcFanOut(rules[..|rules| - 1]), |last.backends|, |HostsOf(o.hostnames)|);
    }
  }

  lemma {:induction false} GrpcBackendsCount(o: Object, backends: seq<Backend>)
    requires o.GrpcObject?
    ensures |GrpcBackends(o, backends)| == |backends| * |HostsOf(o.hostnames)|
  {
    if backends != [] {
      GrpcBackendsCount(o, backends[..|backends| - 1]);
      Distribute(|backends| - 1, 1, |HostsOf(o.hostnames)|);
    }
  }

  lemma {:induction false} HttpBackendsMembers(o: Object, path: Option<string>, backends: seq<Backend>, route: Route)
    requires o.HttpObject?
    ensures route in HttpBackends(o, path, backends) <==>
              exists backend <- backends, host <- HostsOf(o.hostnames) :: route == HttpRoute(o, path, backend, host)
  {
    if backends != [] {
      var before, last, hosts := backends[..|backends| - 1], backends[|backends| - 1], HostsOf(o.hostnames);
      HttpBackendsMembers(o, path, before, route);
      assert route in HttpHosts(o, path, last, hosts) <==>
          exists host <- hosts :: route == HttpRoute(o, path, last, host) by {
        if host :| host in hosts && route == HttpRoute(o, path, last, host) {
          var i :| 0 <= i < |hosts| && hosts[i] == host;
          assert HttpHosts(o, path, last, hosts)[i] == route;
        }
      }
      assert forall backend :: backend in backends <==> backend in before || backend == last;
    }
  }

  lemma {:induction false} HttpMatchesMembers(o: Object, matches: seq<Option<string>>, backends: seq<Backend>,
                                              route: Route)
    requires o.HttpObject?
    ensures route in HttpMatches(o, matches, backends) <==>
              exists path <- matches :: route in HttpBackends(o, path, backends)
  {
    if matches != [] {
      var before, last := matches[..|matches| - 1], matches[|matches| - 1];
      HttpMatchesMembers(o, before, backends, route);
      assert last in matches && forall path <- before :: path in matches;
      if path :| path in matches && route in HttpBackends(o, path, backends) {
        assert path in before || path == last;
      }
    }
  }

  lemma {:induction false} HttpRulesMembers(o: Object, rules: seq<HttpRule>, route: Route)
    requires o.HttpObject?
    ensures route in HttpRules(o, rules) <==>
              exists rule <- rules :: route in HttpMatches(o, rule.matches, rule.backends)
  {
    if rules != [] {
      var before, last := rules[..|rules| - 1], rules[|rules| - 1];
      HttpRulesMembers(o, before, route);
      assert forall rule :: rule in rules <==> rule in before || rule == last;
    }
  }

  /**
   * The routes an HTTP object converts to, written out: host, path, backend and port of every rule's match and backend,
   * with an empty host where none is listed, an empty path where the match has none, and port 8080 where none is given.
   */
  lemma HttpConversionMembers(o: Object, route: Route)
    requires o.HttpObject?
    ensures var hosts := if o.hostnames == [] then [""] else o.hostnames;
            route in Convert(o) <==>
              exists rule <- o.httpRules, path <- rule.matches, backend <- rule.backends, host <- hosts ::
                route == Route(Metadata("HTTPRoute", o.name, o.namespace, o.annotations), host,
                               if path.Some? then path.value else "", backend.name,
                               if backend.port.Some? then backend.port.value else 8080)
  {
    HttpRulesMembers(o, o.httpRules, route);
    forall rule | rule in o.httpRules { HttpMatchesMembers(o, rule.matches, rule.backends, route); }
    forall rule, path | rule in o.httpRules && path in rule.matches {
      HttpBackendsMembers(o, path, rule.backends, route);
    }
  }

  lemma {:induction false} GrpcBackendsMembers(o: Object, backends: seq<Backend>, route: Route)
    requires o.GrpcObject?
    ensures route in GrpcBackends(o, backends) <==>
              exists backend <- backends, host <- HostsOf(o.hostnames) :: route == GrpcRoute(o, backend, host)
  {
    if backends != [] {
      var before, last, hosts := backends[..|backends| - 1], backends[|backends| - 1], HostsOf(o.hostnames);
      GrpcBackendsMembers(o, before, route);
      assert route in GrpcHosts(o, last, hosts) <==> exists host <- hosts :: route == GrpcRoute(o, last, host) by {
        if host :| host in hosts && route == GrpcRoute(o, last, host) {
          var i :| 0 <= i < |hosts| && hosts[i] == host;
          assert GrpcHosts(o, last, hosts)[i] == route;
        }
      }
      assert forall backend :: backend in backends <==> backend in before || backend == last;
    }
  }

  lemma {:induction false} GrpcRulesMembers(o: Object, rules: seq<GrpcRule>, route: Route)
    requires o.GrpcObject?
    ensures route in GrpcRules(o, rules) <==> exists rule <- rules :: route in GrpcBackends(o, rule.backends)
  {
    if rules != [] {
      var before, last := rules[..|rules| - 1], rules[|rules| - 1];
      GrpcRulesMembers(o, before, route);
      assert forall rule :: rule in rules <==> rule in before || rule == last;
    }
  }

  /** The same for a gRPC object: path "/", and port 0 where none is given. */
  lemma GrpcConversionMembers(o: Object, route: Route)
    requires o.GrpcObject?
    ensures var hosts := if o.hostnames == [] then [""] else o.hostnames;
            route in Convert(o) <==>
              exists rule <- o.grpcRules, backend <- rule.backends, host <- hosts ::
                route == Route(Metadata("GRPCRoute", o.name, o.namespace, o.annotations), host, "/", backend.name,
                               if backend.port.Some? then backend.port.value else 0)
  {
    GrpcRulesMembers(o, o.grpcRules, route);
    forall rule | rule in o.grpcRules { GrpcBackendsMembers(o, rule.backends, route); }
  }

  // ---------- which conversion stands where ----------

  lemma Below(i: nat, n: nat, size: nat, offset: nat)
    requires i < n && offset < size
    ensures 0 <= i * size + offset < n * size
  {
    assert i * size + size == (i + 1) * size <= n * size;
  }

  lemma {:induction false} HttpBackendsAt(o: Object, path: Option<string>, backends: seq<Backend>, b: nat, h: nat)
    requires o.HttpObject? && b < |backends| && h < |HostsOf(o.hostnames)|
    ensures var hosts := HostsOf(o.hostnames);
            0 <= b * |hosts| + h < |HttpBackends(o, path, backends)|
            && HttpBackends(o, path, backends)[b * |hosts| + h] == HttpRoute(o, path, backends[b], hosts[h])
  {
    var hosts, n := HostsOf(o.hostnames), |backends| - 1;
    HttpBackendsCount(o, path, backends);
    HttpBackendsCount(o, path, backends[..n]);
    Below(b, |backends|, |hosts|, h);
    if b < n {
      HttpBackendsAt(o, path, backends[..n], b, h);
    } else {
      assert HttpHosts(o, path, backends[n], hosts)[h] == HttpRoute(o, path, backends[n], hosts[h]);
    }
  }

  lemma {:induction false} HttpMatchesAt(o: Object, matches: seq<Option<string>>, backends: seq<Backend>, m: nat,
                                         i: nat)
    requires o.HttpObject? && m < |matches| && i < |backends| * |HostsOf(o.hostnames)|
    ensures var size := |backends| * |HostsOf(o.hostnames)|;
            0 <= m * size + i < |HttpMatches(o, matches, backends)| && i < |HttpBackends(o, matches[m], backends)|
            && HttpMatches(o, matches, backends)[m * size + i] == HttpBackends(o, matches[m], backends)[i]
  {
    var size, n := |backends| * |HostsOf(o.hostnames)|, |matches| - 1;
    HttpMatchesSize(o, matches, backends);
    HttpMatchesSize(o, matches[..n], backends);
    HttpBackendsCount(o, matches[m], backends);
    Below(m, |matches|, size, i);
    if m < n { HttpMatchesAt(o, matches[..n], backends, m, i); }
  }

  lemma HttpMatchesSize(o: Object, matches: seq<Option<string>>, backends: seq<Backend>)
    requires o.HttpObject?
    ensures |HttpMatches(o, matches, backends)| == |matches| * (|backends| * |HostsOf(o.hostnames)|)
  {
    HttpMatchesCount(o, matches, backends);
    Associate(|matches|, |backends|, |HostsOf(o.hostnames)|);
  }

  lemma Associate(a: nat, b: nat, c: nat)
    ensures a * b * c == a * (b * c)
  {
  }

  lemma {:induction false} HttpRulesAt(o: Object, rules: seq<HttpRule>, r: nat, i: nat)
    requires o.HttpObject? && r < |rules| && i < |HttpMatches(o, rules[r].matches, rules[r].backends)|
    ensures var start := |HttpRules(o, rules[..r])|;
            start + i < |HttpRules(o, rules)|
            && HttpRules(o, rules)[start + i] == HttpMatches(o, rules[r].matches, rules[r].backends)[i]
  {
    var n := |rules| - 1;
    if r < n {
      HttpRulesAt(o, rules[..n], r, i);
      assert rules[..n][..r] == rules[..r];
    } else {
      assert rules[..r] == rules[..n];
    }
  }

  /**
   * Rules come one after the other, within a rule its matches, within a match its backends, within a backend the
   * hosts.
   */
  lemma HttpConversionAt(o: Object, r: nat, m: nat, b: nat, h: nat)
    requires o.HttpObject? && r < |o.httpRules| && m < |o.httpRules[r].matches| && b < |o.httpRules[r].backends|
    requires h < if o.hostnames == [] then 1 else |o.hostnames|
    ensures var rule, hosts := o.httpRules[r], if o.hostnames == [] then [""] else o.hostnames;
            var i := HttpFanOut(o.httpRules[..r]) * |hosts| + m * (|rule.backends| * |hosts|) + b * |hosts| + h;
            0 <= i < |Convert(o)|
            && Convert(o)[i] ==
                 Route(Metadata("HTTPRoute", o.name, o.namespace, o.annotations), hosts[h],
                       if rule.matches[m].Some? then rule.matches[m].value else "", rule.backends[b].name,
                       if rule.backends[b].port.Some? then rule.backends[b].port.value else 8080)
  {
    var rule, hosts := o.httpRules[r], HostsOf(o.hostnames);
    var i := b * |hosts| + h;
    var j := m * (|rule.backends| * |hosts|) + i;
    Below(b, |rule.backends|, |hosts|, h);
    HttpBackendsAt(o, rule.matches[m], rule.backends, b, h);
    HttpMatchesAt(o, rule.matches, rule.backends, m, i);
    HttpRulesCount(o, o.httpRules[..r]);
    HttpRulesAt(o, o.httpRules, r, j);
  }

  lemma {:induction false} GrpcBackendsAt(o: Object, backends: seq<Backend>, b: nat, h: nat)
    requires o.GrpcObject? && b < |backends| && h < |HostsOf(o.hostnames)|
    ensures var hosts := HostsOf(o.hostnames);
            0 <= b * |hosts| + h < |GrpcBackends(o, backends)|
            && GrpcBackends(o, backends)[b * |hosts| + h] == GrpcRoute(o, backends[b], hosts[h])
  {
    var hosts, n := HostsOf(o.hostnames), |backends| - 1;
    GrpcBackendsCount(o, backends);
    GrpcBackendsCount(o, backends[..n]);
    Below(b, |backends|, |hosts|, h);
    if b < n {
      GrpcBackendsAt(o, backends[..n], b, h);
    } else {
      assert GrpcHosts(o, backends[n], hosts)[h] == GrpcRoute(o, backends[n], hosts[h]);
    }
  }

  lemma {:induction false} GrpcRulesAt(o: Object, rules: seq<GrpcRule>, r: nat, i: nat)
    requires o.GrpcObject? && r < |rules| && i < |GrpcBackends(o, rules[r].backends)|
    ensures var start := |GrpcRules(o, rules[..r])|;
            start + i < |GrpcRules(o, rules)| && GrpcRules(o, rules)[start + i] == GrpcBackends(o, rules[r].backends)[i]
  {
    var n := |rules| - 1;
    if r < n {
      GrpcRulesAt(o, rules[..n], r, i);
      assert rules[..n][..r] == rules[..r];
    } else {
      assert rules[..r] == rules[..n];
    }
  }

  lemma GrpcConversionAt(o: Object, r: nat, b: nat, h: nat)
    requires o.GrpcObject? && r < |o.grpcRules| && b < |o.grpcRules[r].backends|
    requires h < if o.hostnames == [] then 1 else |o.hostnames|
    ensures var rule, hosts := o.grpcRules[r], if o.hostnames == [] then [""] else o.hostnames;
            var i := GrpcFanOut(o.grpcRules[..r]) * |hosts| + b * |hosts| + h;
            0 <= i < |Convert(o)|
            && Convert(o)[i] ==
                 Route(Metadata("GRPCRoute", o.name, o.namespace, o.annotations), hosts[h], "/", rule.backends[b].name,
                       if rule.backends[b].port.Some? then rule.backends[b].port.value else 0)
  {
    var rule, hosts := o.grpcRules[r], HostsOf(o.hostnames);
    Below(b, |rule.backends|, |hosts|, h);
    GrpcBackendsAt(o, rule.backends, b, h);
    GrpcRulesCount(o, o.grpcRules[..r]);
    GrpcRulesAt(o, o.grpcRules, r, b * |hosts| + h);
  }

  // ---------- cache keys ----------

  function ObjectNamespace(o: Object): string {
    if o.NativeObject? then o.route.metadata.namespace else o.namespace
  }

  function ObjectKey(o: Object): string {
    match o
    case NativeObject(route) => route.CacheKey()
    case HttpObject(name, _, _, _, _) => HTTP_ROUTE + "/" + name
    case GrpcObject(name, _, _, _, _) => GRPC_ROUTE + "/" + name
  }

  lemma {:induction false} HttpRulesKey(o: Object, rules: seq<HttpRule>)
    requires o.HttpObject?
    ensures forall route <- HttpRules(o, rules) ::
              route.CacheKey() == ObjectKey(o) && route.metadata.namespace == o.namespace
  {
    if rules != [] {
      HttpRulesKey(o, rules[..|rules| - 1]);
      HttpMatchesKey(o, rules[|rules| - 1].matches, rules[|rules| - 1].backends);
    }
  }

  lemma {:induction false} HttpMatchesKey(o: Object, matches: seq<Option<string>>, backends: seq<Backend>)
    requires o.HttpObject?
    ensures forall route <- HttpMatches(o, matches, backends) ::
              route.CacheKey() == ObjectKey(o) && route.metadata.namespace == o.namespace
  {
    if matches != [] {
      HttpMatchesKey(o, matches[..|matches| - 1], backends);
      forall route | route in HttpBackends(o, matches[|matches| - 1], backends)
        ensures route.CacheKey() == ObjectKey(o) && route.metadata.namespace == o.namespace
      {
        HttpBackendsMembers(o, matches[|matches| - 1], backends, route);
      }
    }
  }

  lemma {:induction false} GrpcBackendsKey(o: Object, backends: seq<Backend>)
    requires o.GrpcObject?
    ensures forall route <- GrpcBackends(o, backends) ::
              route.CacheKey() == ObjectKey(o) && route.metadata.namespace == o.namespace
  {
    if backends != [] { GrpcBackendsKey(o, backends[..|backends| - 1]); }
  }

  lemma {:induction false} GrpcRulesKey(o: Object, rules: seq<GrpcRule>)
    requires o.GrpcObject?
    ensures forall route <- GrpcRules(o, rules) ::
              route.CacheKey() == ObjectKey(o) && route.metadata.namespace == o.namespace
  {
    if rules != [] {
      GrpcRulesKey(o, rules[..|rules| - 1]);
      GrpcBackendsKey(o, rules[|rules| - 1].backends);
    }
  }

  /** All routes of one object share its namespace and its cache key. */
  lemma ConversionsShareKey(o: Object)
    ensures forall route <- Convert(o) ::
              route.CacheKey() == ObjectKey(o) && route.metadata.namespace == ObjectNamespace(o)
  {
    match o
    case NativeObject(_) =>
    case HttpObject(_, _, _, _, rules) => HttpRulesKey(o, rules);
    case GrpcObject(_, _, _, _, rules) => GrpcRulesKey(o, rules);
  }
}
