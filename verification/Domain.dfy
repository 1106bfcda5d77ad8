/** The values shared by every component: addresses, routes and tenant rows. */
module Domain {
  import opened Strings
  import opened Crc32

  const HTTP: string := "http://"
  const HTTPS: string := "https://"
  const TENANT_ID: string := "netcracker.cloud/tenant.service.tenant.id"
  const SERVICE_ID: string := "netcracker.cloud/tenant.service.id"
  const SERVICE_ORDER: string := "netcracker.cloud/tenant.service.order"
  const URL_SUFFIX: string := "netcracker.cloud/tenant.service.url.suffix"
  const GENERAL: string := "GENERAL"
  const DEFAULT_SITE: string := "default"

  // ---------- addresses ----------

  type Address = string
  type Services = map<string, seq<Address>>
  type Sites = map<string, Services>

  function StripHttp(address: string): string {
    if HTTP <= address then address[|HTTP|..] else address
  }

  /** The address without a leading http:// or https://. */
  function StripScheme(address: string): string {
    if HTTP <= address then address[|HTTP|..]
    else if HTTPS <= address then address[|HTTPS|..]
    else address
  }

  /** The part of a URL before its path, query or fragment. */
  function Authority(rest: string): string {
    if rest == [] || rest[0] in "/?#" then [] else [rest[0]] + Authority(rest[1..])
  }

  /** Characters the small URL grammar of this model knows. Everything else makes parsing fail. */
  predicate IsUrlChar(c: char) {
    IsLetterOrDigit(c) || c in "-._~!$&'()*+,;=:/?#"
  }

  /** A port, when there is one, is a run of digits after the last colon. */
  predicate PortIsValid(authority: string) {
    authority == [] ||
    (var last := authority[|authority| - 1];
     if last == ':' then true
     else if IsDigit(last) then PortIsValid(authority[..|authority| - 1])
     else ':' !in authority)
  }

  /** `url.Parse` on an http or https address: the host it yields, or nothing when it fails. */
  function ParseHost(address: Address): Option<string> {
    var authority := Authority(StripScheme(address));
    if (forall c <- address :: IsUrlChar(c)) && PortIsValid(authority) then Some(authority) else None
  }

  function Host(address: Address): string {
    match ParseHost(address)
    case Some(host) => host
    case None => ""
  }

  lemma {:induction false} AuthorityIsPlain(rest: string)
    ensures forall c <- Authority(rest) :: c in rest && c !in "/?#"
    ensures Authority(Authority(rest)) == Authority(rest)
  {
    if rest != [] && rest[0] !in "/?#" {
      AuthorityIsPlain(rest[1..]);
      assert Authority(rest)[1..] == Authority(rest[1..]);
    }
  }

  /** Reading the host of a host gives it back, so flattening twice is flattening once. */
  lemma HostIdempotent(address: Address)
    ensures Host(Host(address)) == Host(address)
  {
    var host := Host(address);
    if ParseHost(address).Some? {
      var rest := StripScheme(address);
      AuthorityIsPlain(rest);
      assert forall c <- rest :: c in address;
      assert "/?#"[0] == '/' && HTTP[5] == '/' && HTTPS[6] == '/';
      assert '/' !in host;
      assert forall i | 0 <= i < |host| :: host[i] != '/';
    }
  }

  // ---------- which host an address has ----------

  predicate AreUrlChars(text: string) { forall i | 0 <= i < |text| :: IsUrlChar(text[i]) }

  /** What may follow the authority: nothing, a path, a query or a fragment. */
  predicate IsTail(tail: string) { tail == "" || tail[0] == '/' || tail[0] == '?' || tail[0] == '#' }

  predicate IsPlain(authority: string) {
    forall i | 0 <= i < |authority| :: authority[i] != '/' && authority[i] != '?' && authority[i] != '#'
  }

  /** `address` is `scheme`, `authority` and `tail`, one after the other; the scheme may be missing. */
  predicate IsUrl(address: string, scheme: string, authority: string, tail: string) {
    && address == scheme + authority + tail
    && (scheme == "http://" || scheme == "https://"
        || (scheme == "" && !("http://" <= address) && !("https://" <= address)))
    && IsPlain(authority) && IsTail(tail)
  }

  /** The characters of the small URL grammar, listed. */
  lemma UrlCharsAre(c: char)
    ensures IsUrlChar(c) <==>
              || c in "abcdefghijklmnopqrstuvwxyz" || c in "ABCDEFGHIJKLMNOPQRSTUVWXYZ" || c in "0123456789"
              || c in "-._~!$&'()*+,;=:/?#"
  {
    LettersAndDigits(c);
  }

  /** Stripping takes one http:// or https:// away and nothing else. */
  lemma StripSchemeMeans(rest: string)
    ensures StripScheme("http://" + rest) == rest && StripScheme("https://" + rest) == rest
    ensures !("http://" <= rest) && !("https://" <= rest) ==> StripScheme(rest) == rest
    ensures StripHttp("http://" + rest) == rest && (!("http://" <= rest) ==> StripHttp(rest) == rest)
  {
    assert "https://"[4] == 's' && "http://"[4] == ':';
    assert ("https://" + rest)[4] == 's';
  }

  lemma {:induction false} AuthorityStops(authority: string, tail: string)
    requires IsPlain(authority) && IsTail(tail)
    ensures Authority(authority + tail) == authority
  {
    assert "/?#"[0] == '/' && "/?#"[1] == '?' && "/?#"[2] == '#';
    if authority == [] {
      assert authority + tail == tail;
    } else {
      assert (authority + tail)[1..] == authority[1..] + tail;
      AuthorityStops(authority[1..], tail);
    }
  }

  lemma StrippedUrl(address: string, scheme: string, authority: string, tail: string)
    requires IsUrl(address, scheme, authority, tail)
    ensures StripScheme(address) == authority + tail
  {
    StripSchemeMeans(authority + tail);
    assert address == scheme + (authority + tail);
  }

  /** The host of a URL is its authority, given URL characters and, where there is a colon, a port of digits. */
  lemma HostOfUrl(address: string, scheme: string, authority: string, tail: string)
    requires IsUrl(address, scheme, authority, tail)
    ensures ParseHost(address) == if AreUrlChars(address) && HasValidPort(authority) then Some(authority) else None
  {
    StrippedUrl(address, scheme, authority, tail);
    AuthorityStops(authority, tail);
    PortMeans(authority);
    assert AreUrlChars(address) <==> forall c <- address :: IsUrlChar(c);
  }

  lemma {:induction false} SplitAtTail(rest: string) returns (authority: string, tail: string)
    ensures rest == authority + tail && IsPlain(authority) && IsTail(tail)
  {
    if IsTail(rest) {
      authority, tail := "", rest;
    } else {
      var more, end := SplitAtTail(rest[1..]);
      authority, tail := [rest[0]] + more, end;
      assert rest == [rest[0]] + rest[1..];
    }
  }

  /** Every text is such a URL, so the lemma above tells the host of every address. */
  lemma EveryAddressIsUrl(address: string) returns (scheme: string, authority: string, tail: string)
    ensures IsUrl(address, scheme, authority, tail)
  {
    scheme := if "http://" <= address then "http://" else if "https://" <= address then "https://" else "";
    authority, tail := SplitAtTail(address[|scheme|..]);
    assert address == scheme + (authority + tail);
  }

  /** No colon, or only digits behind the last one. */
  ghost predicate HasValidPort(authority: string) {
    ':' !in authority
    || exists i :: 0 <= i < |authority| && authority[i] == ':'
         && forall j | i < j < |authority| :: IsDigit(authority[j])
  }

  lemma {:induction false} PortMeans(authority: string)
    ensures PortIsValid(authority) <==> HasValidPort(authority)
  {
    if authority != [] {
      var n := |authority| - 1;
      var before := authority[..n];
      assert authority == before + [authority[n]];
      if IsDigit(authority[n]) {
        PortMeans(before);
        if i :| 0 <= i < |authority| && authority[i] == ':' && forall j | i < j < |authority| :: IsDigit(authority[j]) {
          assert before[i] == ':' && forall j | i < j < |before| :: IsDigit(before[j]);
        }
        if i :| 0 <= i < |before| && before[i] == ':' && forall j | i < j < |before| :: IsDigit(before[j]) {
          assert authority[i] == ':' && forall j | i < j < |authority| :: IsDigit(authority[j]);
        }
      }
    }
  }

  // ---------- routes ----------

  datatype Metadata = Metadata(kind: string, name: string, namespace: string, annotations: map<string, string>)

  datatype Route = Route(metadata: Metadata, host: string, path: string, service: string, targetPort: int)
  {
    function CacheKey(): string {
      (if metadata.kind == "" then "Route" else metadata.kind) + "/" + metadata.name
    }

    predicate IsGeneral() {
      TENANT_ID in metadata.annotations && metadata.annotations[TENANT_ID] == GENERAL
    }

    predicate IsManageable() {
      TENANT_ID in metadata.annotations && metadata.annotations[TENANT_ID] != GENERAL
    }
  }

  // ---------- tenant rows ----------

  datatype TenantDns = TenantDns(
    tenantId: string,
    tenantAdmin: string,
    sites: Sites,
    active: bool,
    namespaces: seq<string>,
    domainName: string,
    serviceName: string,
    tenantName: string,
    removed: bool)
  {
    /** The route that publishes `service` at `address` for this tenant; its namespace is set by the server. */
    function ToRoute(service: string, address: Address): Route {
      Route(
        Metadata("", UniqueRouteName(service, tenantId, address), "", map[TENANT_ID := tenantId]),
        Host(address), "", service, 0)
    }
  }

  ghost predicate Lists(row: TenantDns, site: string, service: string, address: Address) {
    site in row.sites && service in row.sites[site] && address in row.sites[site][service]
  }

  // ---------- cache keys ----------

  /** Among the kinds there are, two routes share a key exactly when they share kind and name, no kind being native. */
  lemma CacheKeyMeans(a: Route, b: Route)
    requires a.metadata.kind in ["", "Route", "HTTPRoute", "GRPCRoute"]
    requires b.metadata.kind in ["", "Route", "HTTPRoute", "GRPCRoute"]
    ensures a.CacheKey() == b.CacheKey() <==>
              a.metadata.name == b.metadata.name
              && (a.metadata.kind == b.metadata.kind || {a.metadata.kind, b.metadata.kind} == {"", "Route"})
  {
    var x, y := if a.metadata.kind == "" then "Route" else a.metadata.kind,
                if b.metadata.kind == "" then "Route" else b.metadata.kind;
    assert "Route"[0] == 'R' && "HTTPRoute"[0] == 'H' && "GRPCRoute"[0] == 'G';
    assert a.CacheKey()[0] == x[0] && b.CacheKey()[0] == y[0];
    assert a.CacheKey()[|x| + 1..] == a.metadata.name && b.CacheKey()[|y| + 1..] == b.metadata.name;
  }

  // ---------- route names: service, tenant and an eight digit checksum of the address ----------

  function UniqueRouteName(service: string, tenantId: string, address: Address): string {
    service + "-" + tenantId + "-" + HexDigits(Checksum(address), 8)
  }

  /** A generated name ends in eight hexadecimal digits and tells them apart. */
  lemma NameEndsInDigits(service: string, tenantId: string, address: Address)
    ensures var name, prefix := UniqueRouteName(service, tenantId, address), service + "-" + tenantId + "-";
            && |name| == |prefix| + 8 && prefix <= name
            && forall i | |prefix| <= i < |name| :: name[i] in "0123456789abcdef"
  {
    var digits, prefix := HexDigits(Checksum(address), 8), service + "-" + tenantId + "-";
    assert UniqueRouteName(service, tenantId, address) == prefix + digits;
    assert forall i | 0 <= i < 8 :: digits[i] in "0123456789abcdef";
  }

  lemma EqualSums(a: string, b: string, c: string, d: string)
    requires a + b == c + d && |b| == |d|
    ensures a == c && b == d
  {
    assert |a| == |c|;
    assert a == (a + b)[..|a|] && c == (c + d)[..|c|];
    assert b == (a + b)[|a|..] && d == (c + d)[|c|..];
  }

  /** Two names of tenants whose ids are equally long are equal if and only if service, tenant and checksum are. */
  lemma NamesEqualIff(service: string, tenantId: string, a: Address, service': string, tenantId': string, b: Address)
    requires |tenantId| == |tenantId'|
    ensures UniqueRouteName(service, tenantId, a) == UniqueRouteName(service', tenantId', b)
            <==> service == service' && tenantId == tenantId' && Checksum(a) == Checksum(b)
  {
    var x, y := HexDigits(Checksum(a), 8), HexDigits(Checksum(b), 8);
    HexTells(Checksum(a), Checksum(b));
    if UniqueRouteName(service, tenantId, a) == UniqueRouteName(service', tenantId', b) {
      EqualSums(service + "-" + tenantId + "-", x, service' + "-" + tenantId' + "-", y);
      EqualSums(service + "-" + tenantId, "-", service' + "-" + tenantId', "-");
      EqualSums(service + "-", tenantId, service' + "-", tenantId');
      EqualSums(service, "-", service', "-");
    }
  }
}
