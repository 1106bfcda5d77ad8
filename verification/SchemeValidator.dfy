/** The chain of checks on a tenant's scheme: host names, duplicates within the tenant, duplicates across tenants. */
module SchemeValidator {
  import opened Strings
  import opened Domain

  // ---------- host names ----------

  const MAX_LABELS: nat := 127
  const MAX_LABEL: nat := 63

  predicate IsLabelChar(c: char) { IsLetterOrDigit(c) || c == '-' }

  /** Sections 2.3.1 and 2.3.4 of RFC 1035 and section 2.1 of RFC 1123: a part of a host name. */
  predicate IsLabel(part: string) {
    && 1 <= |part| <= MAX_LABEL
    && (forall c <- part :: IsLabelChar(c))
    && part[0] != '-' && part[|part| - 1] != '-'
  }

  /** Labels joined by dots, at most 127 of them, the last one not starting with a digit. */
  ghost predicate IsHostName(host: string) {
    exists labels: seq<string> :: IsLabelling(labels, host)
  }

  predicate IsLabelling(labels: seq<string>, host: string) {
    && 1 <= |labels| <= MAX_LABELS
    && Join(labels, '.') == host
    && (forall i | 0 <= i < |labels| :: IsLabel(labels[i]))
    && !IsDigit(labels[|labels| - 1][0])
  }

  ghost predicate Accepts(address: Address) {
    ParseHost(address).Some? && IsHostName(ParseHost(address).value)
  }

  method ValidatePart(part: string, isLastPart: bool) returns (valid: bool)
    ensures valid <==> IsLabel(part) && (isLastPart ==> !IsDigit(part[0]))
  {
    if 1 <= |part| <= 63 {
      for i := 0 to |part|
        invariant forall j | 0 <= j < i :: IsLabelChar(part[j])
      {
        if !IsLabelChar(part[i]) { return false; }
      }
      if '-' != part[0] && '-' != part[|part| - 1] {
        return !isLastPart || !IsDigit(part[0]);
      }
    }
    return false;
  }

  method ValidateParts(parts: seq<string>) returns (error: Option<string>)
    requires |parts| >= 1
    ensures error.None? <==>
              |parts| <= MAX_LABELS && (forall i | 0 <= i < |parts| :: IsLabel(parts[i]))
                  && !IsDigit(parts[|parts| - 1][0])
  {
    if |parts| > 127 {
      return Some("Domain has too many parts");
    }
    var lastIndex := |parts| - 1;
    var valid := ValidatePart(parts[lastIndex], true);
    if !valid {
      return Some("Not a valid URL");
    }
    for i := 0 to lastIndex
      invariant forall j | 0 <= j < i :: IsLabel(parts[j])
    {
      valid := ValidatePart(parts[i], false);
      if !valid { return Some("Not a valid URL"); }
    }
    error := None;
  }

  method ValidateUrl(url: Address) returns (error: Option<string>)
    ensures error.None? <==> Accepts(url)
  {
    var parsed := ParseHost(url);
    if parsed.None? || parsed.value == "" {
      EmptyIsNoHostName();
      return Some("Not a valid URL");
    }
    PartsDecide(parsed.value);
    error := ValidateParts(Split(parsed.value, '.'));
  }

  /** A host is a host name exactly when the parts between its dots are fit labels. */
  lemma PartsDecide(host: string)
    ensures IsHostName(host) <==> IsLabelling(Split(host, '.'), host)
    ensures Join(Split(host, '.'), '.') == host
  {
    JoinOfSplit(host, '.');
    if labels: seq<string> :| IsLabelling(labels, host) {
      forall part | part in labels ensures '.' !in part { assert forall c <- part :: IsLabelChar(c); }
      SplitOfJoin(labels, '.');
    }
  }

  lemma EmptyIsNoHostName()
    ensures !IsHostName("")
  {
    PartsDecide("");
    var parts := Split("", '.');
    assert parts == [""] && !IsLabel(parts[0]);
  }

  /** The characters of a label, listed. */
  lemma LabelCharsAre(c: char)
    ensures IsLabelChar(c) <==>
              || c in "abcdefghijklmnopqrstuvwxyz" || c in "ABCDEFGHIJKLMNOPQRSTUVWXYZ"
              || c in "0123456789" || c == '-'
  {
    LettersAndDigits(c);
  }

  lemma {:induction false} JoinChars(parts: seq<string>, c: char)
    requires |parts| >= 1 && c in Join(parts, '.')
    ensures c == '.' || exists i :: 0 <= i < |parts| && c in parts[i]
  {
    if |parts| > 1 {
      assert Join(parts, '.') == parts[0] + "." + Join(parts[1..], '.');
      if c in Join(parts[1..], '.') {
        JoinChars(parts[1..], c);
        if i :| 0 <= i < |parts[1..]| && c in parts[1..][i] { assert c in parts[i + 1]; }
      }
    }
  }

  /** A host name is letters, digits, hyphens and dots. */
  lemma HostNameChars(host: string, c: char)
    requires IsHostName(host) && c in host
    ensures IsLabelChar(c) || c == '.'
  {
    var labels: seq<string> :| IsLabelling(labels, host);
    JoinChars(labels, c);
    if i :| 0 <= i < |labels| && c in labels[i] { assert IsLabel(labels[i]); }
  }

  /** An address, under either scheme or none, is accepted if and only if its authority is a host name. */
  lemma AcceptsIff(address: Address, scheme: string, authority: string, tail: string)
    requires IsUrl(address, scheme, authority, tail) && AreUrlChars(address)
    ensures Accepts(address) <==> IsHostName(authority)
  {
    HostOfUrl(address, scheme, authority, tail);
    if IsHostName(authority) && ':' in authority { HostNameChars(authority, ':'); }
  }

  /** The host of an accepted address is itself an accepted address, with the same host. */
  lemma AcceptedHostStaysAccepted(address: Address)
    requires Accepts(address)
    ensures Accepts(Host(address)) && Host(Host(address)) == Host(address)
  {
    HostIdempotent(address);
    var host := Host(address);
    EmptyIsNoHostName();
    assert ParseHost(host) == Some(host);
  }

  // ---------- the checks ----------

  /**
   * `SameAddress` is the scan inside the second check: it looks for another service with the stripped address `url`.
   */
  datatype Checker = UrlChecker | InTenantChecker | InSchemeChecker | SameAddress(service: string, url: string)

  ghost predicate DuplicatedInTenant(service: string, address: Address, tenant: TenantDns) {
    exists site, other, otherAddress ::
      Lists(tenant, site, other, otherAddress) && other != service && StripHttp(otherAddress) == StripHttp(address)
  }

  ghost predicate DuplicatedInScheme(service: string, address: Address, tenant: TenantDns, data: seq<TenantDns>) {
    exists row, site, other, otherAddress ::
      row in data && row.tenantId != tenant.tenantId && Lists(row, site, other, otherAddress)
      && other != service && otherAddress == StripScheme(address)
  }

  ghost predicate Passes(checker: Checker, service: string, address: Address, tenant: TenantDns, data: seq<TenantDns>) {
    match checker
    case UrlChecker => Accepts(address)
    case InTenantChecker => !DuplicatedInTenant(service, address, tenant)
    case InSchemeChecker => !DuplicatedInScheme(service, address, tenant, data)
    case SameAddress(service0, url0) => !(StripHttp(address) == url0 && service != service0)
  }

  // ---------- results ----------

  datatype ValidationInfo = ValidationInfo(valid: bool, reason: string)

  type Entries = map<string, map<string, ValidationInfo>>

  function Verdict(entries: Entries, site: string, service: string): Option<bool> {
    if site in entries && service in entries[site] then Some(entries[site][service].valid) else None
  }

  predicate HasAddresses(tenant: TenantDns, site: string, service: string) {
    site in tenant.sites && service in tenant.sites[site] && tenant.sites[site][service] != []
  }

  /** Some of the first `upTo` addresses of a service fails the check. */
  ghost predicate Fails(checker: Checker, tenant: TenantDns, data: seq<TenantDns>, site: string, service: string,
                        upTo: nat) {
    site in tenant.sites && service in tenant.sites[site] &&
    exists i :: 0 <= i < upTo && i < |tenant.sites[site][service]|
        && !Passes(checker, service, tenant.sites[site][service][i], tenant, data)
  }

  /** A failing address makes the entry invalid for good; a passing one only makes an entry where there was none. */
  ghost predicate Recorded(before: Option<bool>, after: Option<bool>, seen: bool, failed: bool) {
    after == if !seen then before else if failed then Some(false) else if before.None? then Some(true) else before
  }

  /** What one run over all addresses of the tenant makes of the entries. */
  ghost predicate Updated(before: Entries, after: Entries, checker: Checker, tenant: TenantDns, data: seq<TenantDns>) {
    && after.Keys == before.Keys + tenant.sites.Keys
    && forall site, service ::
         Recorded(Verdict(before, site, service), Verdict(after, site, service), HasAddresses(tenant, site, service),
                  HasAddresses(tenant, site, service)
                      && Fails(checker, tenant, data, site, service, |tenant.sites[site][service]|))
  }

  class ValidationResult {
    var entries: Entries

    constructor ()
      ensures entries == map[]
    {
      entries := map[];
    }
  }

  function WithEntry(entries: Entries, site: string, service: string, info: ValidationInfo): Entries
    requires site in entries
  {
    entries[site := entries[site][service := info]]
  }

  lemma EntryVerdict(entries: Entries, site: string, service: string, info: ValidationInfo)
    requires site in entries
    ensures WithEntry(entries, site, service, info).Keys == entries.Keys
    ensures forall other, name :: Verdict(WithEntry(entries, site, service, info), other, name) ==
              if other == site && name == service then Some(info.valid) else Verdict(entries, other, name)
  {
  }

  lemma FailsStep(checker: Checker, tenant: TenantDns, data: seq<TenantDns>, site: string, service: string, i: nat)
    requires site in tenant.sites && service in tenant.sites[site] && i < |tenant.sites[site][service]|
    ensures Fails(checker, tenant, data, site, service, i + 1) <==>
              Fails(checker, tenant, data, site, service, i)
                  || !Passes(checker, service, tenant.sites[site][service][i], tenant, data)
  {
    if Fails(checker, tenant, data, site, service, i + 1) {
      var j :| 0 <= j < i + 1 && !Passes(checker, service, tenant.sites[site][service][j], tenant, data);
    }
    if !Passes(checker, service, tenant.sites[site][service][i], tenant, data) {
      assert Fails(checker, tenant, data, site, service, i + 1);
    }
  }

  function Rank(checker: Checker): nat { if checker.SameAddress? then 0 else 1 }

  method IterateOverTenant(checker: Checker, tenant: TenantDns, data: seq<TenantDns>, result: ValidationResult)
    modifies result
    ensures Updated(old(result.entries), result.entries, checker, tenant, data)
    decreases Rank(checker), 3
  {
    ghost var before := result.entries;
    var sites := tenant.sites.Keys;
    while sites != {}
      invariant sites <= tenant.sites.Keys
      invariant result.entries.Keys == before.Keys + (tenant.sites.Keys - sites)
      invariant forall site, service ::
                  Recorded(Verdict(before, site, service), Verdict(result.entries, site, service),
                           site !in sites && HasAddresses(tenant, site, service),
                           site !in sites && HasAddresses(tenant, site, service)
                           && Fails(checker, tenant, data, site, service, |tenant.sites[site][service]|))
      decreases sites
    {
      var site :| site in sites;
      IterateOverSite(checker, tenant, data, site, result);
      sites := sites - {site};
    }
  }

  method IterateOverSite(checker: Checker, tenant: TenantDns, data: seq<TenantDns>, site: string,
                         result: ValidationResult)
    requires site in tenant.sites
    modifies result
    ensures result.entries.Keys == old(result.entries).Keys + {site}
    ensures forall other, service | other != site ::
              Verdict(result.entries, other, service) == Verdict(old(result.entries), other, service)
    ensures forall service ::
              Recorded(Verdict(old(result.entries), site, service), Verdict(result.entries, site, service),
                  HasAddresses(tenant, site, service),
                       HasAddresses(tenant, site, service)
                           && Fails(checker, tenant, data, site, service, |tenant.sites[site][service]|))
    decreases Rank(checker), 2
  {
    ghost var before := result.entries;
    if site !in result.entries {
      result.entries := result.entries[site := map[]];
    }
    var services := tenant.sites[site].Keys;
    while services != {}
      invariant services <= tenant.sites[site].Keys
      invariant result.entries.Keys == before.Keys + {site}
      invariant forall other, service | other != site ::
                  Verdict(result.entries, other, service) == Verdict(before, other, service)
      invariant forall service ::
                  Recorded(Verdict(before, site, service), Verdict(result.entries, site, service),
                           service !in services && HasAddresses(tenant, site, service),
                           service !in services && HasAddresses(tenant, site, service)
                           && Fails(checker, tenant, data, site, service, |tenant.sites[site][service]|))
      decreases services
    {
      var service :| service in services;
      IterateOverService(checker, tenant, data, site, service, result);
      services := services - {service};
    }
  }

  method IterateOverService(checker: Checker, tenant: TenantDns, data: seq<TenantDns>, site: string, service: string,
                            result: ValidationResult)
    requires site in tenant.sites && service in tenant.sites[site] && site in result.entries
    modifies result
    ensures result.entries.Keys == old(result.entries).Keys
    ensures forall other, name | other != site || name != service ::
              Verdict(result.entries, other, name) == Verdict(old(result.entries), other, name)
    ensures Recorded(Verdict(old(result.entries), site, service), Verdict(result.entries, site, service),
              HasAddresses(tenant, site, service),
                     Fails(checker, tenant, data, site, service, |tenant.sites[site][service]|))
    decreases Rank(checker), 1
  {
    ghost var before := result.entries;
    var addresses := tenant.sites[site][service];
    for i := 0 to |addresses|
      invariant result.entries.Keys == before.Keys
      invariant forall other, name | other != site || name != service ::
                  Verdict(result.entries, other, name) == Verdict(before, other, name)
      invariant Recorded(Verdict(before, site, service), Verdict(result.entries, site, service), i > 0,
                         Fails(checker, tenant, data, site, service, i))
    {
      var error := Check(checker, service, addresses[i], tenant, data);
      FailsStep(checker, tenant, data, site, service, i);
      if error.Some? {
        EntryVerdict(result.entries, site, service, ValidationInfo(false, error.value));
        result.entries := WithEntry(result.entries, site, service, ValidationInfo(false, error.value));
      } else if service !in result.entries[site] {
        EntryVerdict(result.entries, site, service, ValidationInfo(true, ""));
        result.entries := WithEntry(result.entries, site, service, ValidationInfo(true, ""));
      }
    }
  }

  method Check(checker: Checker, service: string, address: Address, tenant: TenantDns, data: seq<TenantDns>)
    returns (error: Option<string>)
    ensures error.None? <==> Passes(checker, service, address, tenant, data)
    decreases Rank(checker), 0
  {
    match checker {
      case UrlChecker =>
        error := ValidateUrl(address);
      case InTenantChecker =>
        error := ValidateTenantDuplications(service, address, tenant);
      case InSchemeChecker =>
        var found := AnyMatch(tenant.tenantId, data, service, StripScheme(address));
        error := if found then Some("Matches with url for another service") else None;
      case SameAddress(service0, url0) =>
        error := if StripHttp(address) == url0 && service != service0
            then Some("There are duplications in tenant scheme") else None;
    }
  }

  /** Runs the scan for the same address over the whole tenant and looks for an invalid entry. */
  method ValidateTenantDuplications(service: string, address: Address, tenant: TenantDns)
    returns (error: Option<string>)
    ensures error.None? <==> !DuplicatedInTenant(service, address, tenant)
    decreases 0, 4
  {
    var scan := SameAddress(service, StripHttp(address));
    var validation := new ValidationResult();
    IterateOverTenant(scan, tenant, [], validation);
    InvalidEntryMeansDuplicate(validation.entries, service, address, tenant);
    var sites := validation.entries.Keys;
    while sites != {}
      invariant sites <= validation.entries.Keys
      invariant forall site, name | site !in sites :: Verdict(validation.entries, site, name) != Some(false)
      decreases sites
    {
      var site :| site in sites;
      var names := validation.entries[site].Keys;
      while names != {}
        invariant names <= validation.entries[site].Keys
        invariant forall name | name !in names :: Verdict(validation.entries, site, name) != Some(false)
        decreases names
      {
        var name :| name in names;
        if !validation.entries[site][name].valid {
          assert Verdict(validation.entries, site, name) == Some(false);
          return Some("Matches with another service in current tenant");
        }
        names := names - {name};
      }
      sites := sites - {site};
    }
    error := None;
  }

  lemma InvalidEntryMeansDuplicate(entries: Entries, service: string, address: Address, tenant: TenantDns)
    requires Updated(map[], entries, SameAddress(service, StripHttp(address)), tenant, [])
    ensures DuplicatedInTenant(service, address, tenant) <==>
              exists site, name :: Verdict(entries, site, name) == Some(false)
  {
    var scan := SameAddress(service, StripHttp(address));
    if site, name :| Verdict(entries, site, name) == Some(false) {
      assert Recorded(Verdict(map[], site, name), Verdict(entries, site, name), HasAddresses(tenant, site, name),
                      HasAddresses(tenant, site, name)
                          && Fails(scan, tenant, [], site, name, |tenant.sites[site][name]|));
      var i :| 0 <= i < |tenant.sites[site][name]| && !Passes(scan, name, tenant.sites[site][name][i], tenant, []);
      assert Lists(tenant, site, name, tenant.sites[site][name][i]);
    }
    if DuplicatedInTenant(service, address, tenant) {
      var site, other, otherAddress :|
        Lists(tenant, site, other, otherAddress) && other != service && StripHttp(otherAddress) == StripHttp(address);
      var i :| 0 <= i < |tenant.sites[site][other]| && tenant.sites[site][other][i] == otherAddress;
      assert !Passes(scan, other, tenant.sites[site][other][i], tenant, []);
      assert Fails(scan, tenant, [], site, other, |tenant.sites[site][other]|);
      assert Verdict(entries, site, other) == Some(false);
    }
  }

  /** Does another tenant list `url` under another service name? */
  method AnyMatch(tenantId: string, data: seq<TenantDns>, service: string, url: string) returns (found: bool)
    ensures found <==> exists row, site, other ::
              row in data && row.tenantId != tenantId && Lists(row, site, other, url) && other != service
  {
    for i := 0 to |data|
      invariant forall row, site, other | row in data[..i] && row.tenantId != tenantId && other != service ::
                  !Lists(row, site, other, url)
    {
      if data[i].tenantId != tenantId {
        found := AnyMatchInRow(data[i], service, url);
        if found { return true; }
      }
      assert data[..i + 1] == data[..i] + [data[i]];
    }
    assert data[..|data|] == data;
    found := false;
  }

  method AnyMatchInRow(row: TenantDns, service: string, url: string) returns (found: bool)
    ensures found <==> exists site, other :: Lists(row, site, other, url) && other != service
  {
    var sites := row.sites.Keys;
    while sites != {}
      invariant sites <= row.sites.Keys
      invariant forall site, other | site !in sites && other != service :: !Lists(row, site, other, url)
      decreases sites
    {
      var site :| site in sites;
      var names := row.sites[site].Keys;
      while names != {}
        invariant names <= row.sites[site].Keys
        invariant forall other | other !in names && other != service :: !Lists(row, site, other, url)
        decreases names
      {
        var name :| name in names;
        var addresses := row.sites[site][name];
        for i := 0 to |addresses|
          invariant name != service ==> url !in addresses[..i]
        {
          if addresses[i] == url && name != service {
            assert Lists(row, site, name, url);
            return true;
          }
        }
        assert addresses[..|addresses|] == addresses;
        names := names - {name};
      }
      sites := sites - {site};
    }
    found := false;
  }

  /** The chain: each check runs over the whole tenant before the next one starts. */
  method CheckScheme(tenant: TenantDns, data: seq<TenantDns>) returns (entries: Entries)
    ensures forall site, service :: Verdict(entries, site, service).Some? <==> HasAddresses(tenant, site, service)
    ensures forall site, service | HasAddresses(tenant, site, service) ::
              Verdict(entries, site, service) == Some(
                forall address <- tenant.sites[site][service] ::
                  Accepts(address) && !DuplicatedInTenant(service, address, tenant)
                      && !DuplicatedInScheme(service, address, tenant, data))
  {
    var result := new ValidationResult();
    IterateOverTenant(UrlChecker, tenant, data, result);
    ghost var first := result.entries;
    IterateOverTenant(InTenantChecker, tenant, data, result);
    ghost var second := result.entries;
    IterateOverTenant(InSchemeChecker, tenant, data, result);
    entries := result.entries;
    forall site, service
      ensures Verdict(entries, site, service).Some? <==> HasAddresses(tenant, site, service)
      ensures HasAddresses(tenant, site, service) ==>
                Verdict(entries, site, service) == Some(
                  forall address <- tenant.sites[site][service] ::
                    Accepts(address) && !DuplicatedInTenant(service, address, tenant)
                        && !DuplicatedInScheme(service, address, tenant, data))
    {
      ChainVerdict(first, second, entries, tenant, data, site, service);
    }
  }

  lemma ChainVerdict(first: Entries, second: Entries, third: Entries, tenant: TenantDns, data: seq<TenantDns>,
                     site: string, service: string)
    requires Updated(map[], first, UrlChecker, tenant, data)
    requires Updated(first, second, InTenantChecker, tenant, data)
    requires Updated(second, third, InSchemeChecker, tenant, data)
    ensures Verdict(third, site, service).Some? <==> HasAddresses(tenant, site, service)
    ensures HasAddresses(tenant, site, service) ==>
              Verdict(third, site, service) == Some(
                forall address <- tenant.sites[site][service] ::
                  Accepts(address) && !DuplicatedInTenant(service, address, tenant)
                      && !DuplicatedInScheme(service, address, tenant, data))
  {
    if HasAddresses(tenant, site, service) {
      var addresses := tenant.sites[site][service];
      forall checker
        ensures Fails(checker, tenant, data, site, service, |addresses|) <==>
                  exists address <- addresses :: !Passes(checker, service, address, tenant, data)
      {
        if address :| address in addresses && !Passes(checker, service, address, tenant, data) {
          var i :| 0 <= i < |addresses| && addresses[i] == address;
        }
      }
      assert forall address :: Passes(UrlChecker, service, address, tenant, data) <==> Accepts(address);
      assert forall address :: Passes(InTenantChecker, service, address, tenant, data) <==>
          !DuplicatedInTenant(service, address, tenant);
      assert forall address :: Passes(InSchemeChecker, service, address, tenant, data) <==>
          !DuplicatedInScheme(service, address, tenant, data);
    }
  }
}
