/** The two things kept in step with tenant-manager: the tenant table at start-up and the cache of active tenants. */
module TenantManager {
  import opened Strings
  import opened Domain
  import opened SyncPass
  import Composite
  import Synchronizer

  const ACTIVE: string := "ACTIVE"
  const SUSPENDED: string := "SUSPENDED"

  datatype Tenant = Tenant(
    objectId: string,
    externalId: string,
    domainName: string,
    serviceName: string,
    tenantName: string,
    status: string,
    namespace: string,
    admin: string)

  // ---------- the table at start-up ----------

  /** What preparing the row of one tenant yields besides the tenant's own data. */
  datatype Prepared = Prepared(sites: Sites, serviceName: string)

  function Namespaces(tenant: Tenant): seq<string> {
    if tenant.namespace != "" then Split(tenant.namespace, ',') else []
  }

  /** The list is the text cut at its commas: joined again it gives the text, and no part holds a comma. */
  lemma NamespacesMean(tenant: Tenant)
    ensures if tenant.namespace == "" then Namespaces(tenant) == []
            else Namespaces(tenant) != [] && Join(Namespaces(tenant), ',') == tenant.namespace
                 && forall part <- Namespaces(tenant) :: ',' !in part
  {
    JoinOfSplit(tenant.namespace, ',');
  }

  /** What is left in the tenant's list after its hierarchy was looked up: the loop that drops `own` works in place. */
  function StoredNamespaces(own: string, tenant: Tenant): seq<string> {
    Composite.DropFrom(Namespaces(tenant), 0, |Namespaces(tenant)|, own).0
  }

  /** The row written for a tenant; only an active one gets sites. */
  function RowOf(own: string, tenant: Tenant, prepared: Prepared): TenantDns {
    var active := tenant.status == ACTIVE;
    TenantDns(tenant.objectId, tenant.admin, if active then prepared.sites else map[], active,
              StoredNamespaces(own, tenant), tenant.domainName, if active then prepared.serviceName else "",
              tenant.tenantName, false)
  }

  function Ids(tenants: seq<Tenant>): set<string> { set tenant | tenant in tenants :: tenant.objectId }

  /** `tenants[i]` is the last tenant of its id whose upsert succeeded. */
  ghost predicate LastUpsert(tenants: seq<Tenant>, prepared: seq<Option<Prepared>>, i: int)
    requires |prepared| == |tenants|
  {
    && 0 <= i < |tenants| && prepared[i].Some?
    && forall j | i < j < |tenants| && prepared[j].Some? :: tenants[j].objectId != tenants[i].objectId
  }

  ghost predicate Upserts(tenants: seq<Tenant>, prepared: seq<Option<Prepared>>, id: string)
    requires |prepared| == |tenants|
  {
    exists i :: 0 <= i < |tenants| && tenants[i].objectId == id && prepared[i].Some?
  }

  /** `now` is `before` with the last successful row of each tenant written into it. */
  ghost predicate Upserted(own: string, before: Table, tenants: seq<Tenant>, prepared: seq<Option<Prepared>>,
                           now: Table)
    requires |prepared| == |tenants|
  {
    && (forall i | LastUpsert(tenants, prepared, i) ::
          tenants[i].objectId in now && now[tenants[i].objectId] == RowOf(own, tenants[i], prepared[i].value))
    && (forall id | !Upserts(tenants, prepared, id) ::
         (id in now <==> id in before) && (id in now ==> now[id] == before[id]))
  }

  lemma UpsertedStep(own: string, before: Table, tenants: seq<Tenant>, prepared: seq<Option<Prepared>>, now: Table,
                     tenant: Tenant, outcome: Option<Prepared>)
    requires |prepared| == |tenants| && Upserted(own, before, tenants, prepared, now)
    ensures Upserted(own, before, tenants + [tenant], prepared + [outcome],
                     if outcome.Some? then now[tenant.objectId := RowOf(own, tenant, outcome.value)] else now)
  {
    var tenants', prepared' := tenants + [tenant], prepared + [outcome];
    forall i | LastUpsert(tenants', prepared', i) && i < |tenants|
      ensures LastUpsert(tenants, prepared, i) && (outcome.Some? ==> tenants[i].objectId != tenant.objectId)
    {
      assert forall j | 0 <= j < |tenants| :: tenants'[j] == tenants[j] && prepared'[j] == prepared[j];
      assert tenants'[|tenants|] == tenant && prepared'[|tenants|] == outcome;
    }
    forall id | !Upserts(tenants', prepared', id)
      ensures !Upserts(tenants, prepared, id) && (outcome.Some? ==> id != tenant.objectId)
    {
      assert tenants'[|tenants|] == tenant && prepared'[|tenants|] == outcome;
      assert forall j | 0 <= j < |tenants| :: tenants'[j] == tenants[j] && prepared'[j] == prepared[j];
    }
  }

  /** Every successful upsert has a last one of its id. */
  lemma {:induction false} LastUpsertExists(tenants: seq<Tenant>, prepared: seq<Option<Prepared>>,
                                            i: nat) returns (last: nat)
    requires |prepared| == |tenants| && i < |tenants| && prepared[i].Some?
    ensures i <= last && LastUpsert(tenants, prepared, last) && tenants[last].objectId == tenants[i].objectId
    decreases |tenants| - i
  {
    if j :| i < j < |tenants| && prepared[j].Some? && tenants[j].objectId == tenants[i].objectId {
      last := LastUpsertExists(tenants, prepared, j);
    } else {
      last := i;
    }
  }

  /** Rows tenant-manager does not know are emptied and marked, unless marking them fails. */
  function MarkAbsent(table: Table, known: set<string>, stuck: set<string>): Table {
    map id | id in table :: if id in known || id in stuck then table[id]
        else table[id].(sites := map[], removed := true)
  }

  /** `now` is what the start-up synchronization can make of `before`. */
  ghost predicate Synced(own: string, before: Table, tenants: seq<Tenant>, prepared: seq<Option<Prepared>>,
                         stuck: set<string>, now: Table)
    requires |prepared| == |tenants|
  {
    exists middle :: Upserted(own, before, tenants, prepared, middle) && now == MarkAbsent(middle, Ids(tenants), stuck)
  }

  class TenantSync {
    const dao: Synchronizer.RouteManagerDao
    const own: string

    constructor (dao: Synchronizer.RouteManagerDao, own: string)
      ensures this.dao == dao && this.own == own
    {
      this.dao, this.own := dao, own;
    }

    /** Marks the row removed and empties it; a tenant without a row is no error. */
    method DeleteTenant(id: string)
      requires dao.Valid()
      modifies dao
      ensures dao.Valid()
      ensures dao.table == if id in old(dao.table)
                           then old(dao.table)[id := old(dao.table)[id].(sites := map[], removed := true)]
                               else old(dao.table)
    {
      var row := dao.FindByTenantId(id);
      if row.Some? {
        dao.Upsert(row.value.(sites := map[], removed := true));
      }
    }

    /** Looks up the hierarchy of the tenant's namespaces, which edits the list, and stores that same list. */
    method UpsertTenantFromTM(tenant: Tenant, prepared: Prepared)
      requires dao.Valid()
      modifies dao
      ensures dao.Valid() && dao.table == old(dao.table)[tenant.objectId := RowOf(own, tenant, prepared)]
    {
      var listed := Namespaces(tenant);
      var namespaces := new string[|listed|](i requires 0 <= i < |listed| => listed[i]);
      assert namespaces[..] == listed;
      var _ := Composite.DropNamespace(namespaces, own);
      var active := tenant.status == ACTIVE;
      dao.Upsert(TenantDns(tenant.objectId, tenant.admin, if active then prepared.sites else map[], active,
                           namespaces[..], tenant.domainName, if active then prepared.serviceName else "",
                           tenant.tenantName, false));
    }

    method UpsertTenants(tenants: seq<Tenant>, prepared: seq<Option<Prepared>>) returns (known: set<string>)
      requires dao.Valid() && |prepared| == |tenants|
      modifies dao
      ensures dao.Valid() && Upserted(own, old(dao.table), tenants, prepared, dao.table)
      ensures known == Ids(tenants)
    {
      ghost var before := dao.table;
      known := {};
      for i := 0 to |tenants|
        invariant dao.Valid() && known == Ids(tenants[..i])
        invariant Upserted(own, before, tenants[..i], prepared[..i], dao.table)
      {
        UpsertedStep(own, before, tenants[..i], prepared[..i], dao.table, tenants[i], prepared[i]);
        assert tenants[..i + 1] == tenants[..i] + [tenants[i]] && prepared[..i + 1] == prepared[..i] + [prepared[i]];
        known := known + {tenants[i].objectId};
        if prepared[i].Some? {
          UpsertTenantFromTM(tenants[i], prepared[i].value);
        }
      }
      assert tenants[..|tenants|] == tenants && prepared[..|prepared|] == prepared;
    }

    method DeleteAbsentTenants(rows: seq<TenantDns>, known: set<string>, stuck: set<string>)
      requires dao.Valid() && RowSet(rows) == dao.table.Values
      modifies dao
      ensures dao.Valid() && dao.table == MarkAbsent(old(dao.table), known, stuck)
    {
      ghost var before := dao.table;
      ghost var marked := MarkAbsent(before, known, stuck);
      for i := 0 to |rows|
        invariant dao.Valid() && dao.table.Keys == before.Keys
        invariant forall id | id in before :: dao.table[id] == before[id] || dao.table[id] == marked[id]
        invariant forall j | 0 <= j < i && rows[j].tenantId in before ::
                    dao.table[rows[j].tenantId] == marked[rows[j].tenantId]
      {
        if rows[i].tenantId !in known && rows[i].tenantId !in stuck {
          DeleteTenant(rows[i].tenantId);
        }
      }
      forall id | id in before ensures dao.table[id] == marked[id] {
        assert before[id] in RowSet(rows);
        var j :| 0 <= j < |rows| && rows[j] == before[id];
      }
    }

    /**
     * The round that ends the start-up loop. `prepared[i]` is nothing when the i-th upsert fails, `stuck` are the rows
     * that cannot be marked; both kinds of failure are logged and passed over.
     */
    method SyncAllTenantsFromTM(tenants: seq<Tenant>, prepared: seq<Option<Prepared>>, stuck: set<string>)
      requires dao.Valid() && |prepared| == |tenants|
      modifies dao
      ensures dao.Valid() && Synced(own, old(dao.table), tenants, prepared, stuck, dao.table)
    {
      var known := UpsertTenants(tenants, prepared);
      var rows := dao.FindAll();
      DeleteAbsentTenants(rows, known, stuck);
    }
  }

  /** Tenant-manager's ids get their rows, and the rows it does not know can go. */
  ghost predicate NothingInTheWay(before: Table, tenants: seq<Tenant>, prepared: seq<Option<Prepared>>,
                                  stuck: set<string>)
    requires |prepared| == |tenants|
  {
    && (forall id | id in Ids(tenants) && !Upserts(tenants, prepared, id) :: id in before && !before[id].removed)
    && (forall id | id in stuck && id in before && id !in Ids(tenants) :: before[id].removed)
  }

  /** The row with this id is stored without the removed flag after the start-up synchronization. */
  ghost predicate Remains(before: Table, tenants: seq<Tenant>, prepared: seq<Option<Prepared>>, stuck: set<string>,
                          id: string)
    requires |prepared| == |tenants|
  {
    if id in Ids(tenants) then Upserts(tenants, prepared, id) || (id in before && !before[id].removed)
    else id in stuck && id in before && !before[id].removed
  }

  /** Every request that would have changed the row with this id failed. */
  ghost predicate Untouched(tenants: seq<Tenant>, prepared: seq<Option<Prepared>>, stuck: set<string>, id: string)
    requires |prepared| == |tenants|
  {
    if id in Ids(tenants) then !Upserts(tenants, prepared, id) else id in stuck
  }

  lemma RowAfterSync(own: string, before: Table, tenants: seq<Tenant>, prepared: seq<Option<Prepared>>,
                     stuck: set<string>, now: Table, id: string)
    requires |prepared| == |tenants| && Synced(own, before, tenants, prepared, stuck, now)
    ensures id in now && !now[id].removed <==> Remains(before, tenants, prepared, stuck, id)
    ensures id in now && now[id].removed ==>
              now[id].sites == map[]
              || (id in before && now[id] == before[id] && Untouched(tenants, prepared, stuck, id))
  {
    if Upserts(tenants, prepared, id) {
      var i :| 0 <= i < |tenants| && tenants[i].objectId == id && prepared[i].Some?;
      var last := LastUpsertExists(tenants, prepared, i);
      assert tenants[i] in tenants;
    }
  }

  /**
   * After the start-up synchronization and one quiet pass the ids in the table are exactly the ids tenant-manager
   * returned, if and only if no failed request was in the way. No row is marked removed either way.
   */
  lemma TableMirrorsTenantManager(cfg: Config, before: Table, tenants: seq<Tenant>, prepared: seq<Option<Prepared>>,
                                  stuck: set<string>, s: State, work: seq<Work>, s': State, changed: set<string>)
    requires |prepared| == |tenants| && Synced(cfg.namespace, before, tenants, prepared, stuck, s.table)
    requires Pass(cfg, s, work, s', changed)
    ensures s'.table.Keys == Ids(tenants) <==> NothingInTheWay(before, tenants, prepared, stuck)
    ensures forall id | id in s'.table :: !s'.table[id].removed
  {
    IdsAfterSync(cfg.namespace, before, tenants, prepared, stuck, s.table);
    assert s'.table == DropRemoved(s.table);
  }

  lemma IdsAfterSync(own: string, before: Table, tenants: seq<Tenant>, prepared: seq<Option<Prepared>>,
                     stuck: set<string>, now: Table)
    requires |prepared| == |tenants| && Synced(own, before, tenants, prepared, stuck, now)
    ensures DropRemoved(now).Keys == Ids(tenants) <==> NothingInTheWay(before, tenants, prepared, stuck)
  {
    forall id ensures id in DropRemoved(now) <==> Remains(before, tenants, prepared, stuck, id) {
      RowAfterSync(own, before, tenants, prepared, stuck, now, id);
    }
    RemainingIds(before, tenants, prepared, stuck, DropRemoved(now).Keys);
  }

  lemma RemainingIds(before: Table, tenants: seq<Tenant>, prepared: seq<Option<Prepared>>, stuck: set<string>,
                     ids: set<string>)
    requires |prepared| == |tenants|
    requires forall id :: id in ids <==> Remains(before, tenants, prepared, stuck, id)
    ensures ids == Ids(tenants) <==> NothingInTheWay(before, tenants, prepared, stuck)
  {
    if NothingInTheWay(before, tenants, prepared, stuck) {
      forall id ensures id in ids <==> id in Ids(tenants) {}
    }
    if ids == Ids(tenants) {
      forall id ensures id in Ids(tenants) <==> Remains(before, tenants, prepared, stuck, id) {}
    }
  }

  /**
   * Each of those rows shows its tenant's last data, and is active exactly when that tenant is. Its namespaces are the
   * tenant's own ones if and only if in the tenant's list no other namespace follows the service's own; apart from
   * the service's own one the same namespaces are listed either way.
   */
  lemma RowsShowTenants(cfg: Config, before: Table, tenants: seq<Tenant>, prepared: seq<Option<Prepared>>,
                        stuck: set<string>, s: State, work: seq<Work>, s': State, changed: set<string>, i: nat)
    requires |prepared| == |tenants| && Synced(cfg.namespace, before, tenants, prepared, stuck, s.table)
    requires Pass(cfg, s, work, s', changed) && LastUpsert(tenants, prepared, i)
    ensures var id := tenants[i].objectId;
            && id in s'.table && s'.table[id] == RowOf(cfg.namespace, tenants[i], prepared[i].value)
            && s'.table[id].tenantId == id && s'.table[id].tenantAdmin == tenants[i].admin
            && s'.table[id].tenantName == tenants[i].tenantName && s'.table[id].domainName == tenants[i].domainName
            && (s'.table[id].active <==> tenants[i].status == "ACTIVE")
            && (s'.table[id].active ==>
                s'.table[id].sites == prepared[i].value.sites
                    && s'.table[id].serviceName == prepared[i].value.serviceName)
            && (!s'.table[id].active ==> s'.table[id].sites == map[])
            && (s'.table[id].namespaces == Namespaces(tenants[i])
                <==> Composite.RootsLast(Namespaces(tenants[i]), cfg.namespace))
            && (forall ns | ns != cfg.namespace :: ns in s'.table[id].namespaces <==> ns in Namespaces(tenants[i]))
  {
    assert tenants[i] in tenants;
    var listed, own := Namespaces(tenants[i]), cfg.namespace;
    Composite.CallerKeepsListIff(listed, own);
    forall ns | ns != own ensures ns in StoredNamespaces(own, tenants[i]) <==> ns in listed {
      Composite.DropKeepsOthers(listed, 0, |listed|, own, ns);
    }
  }

  /**
   * That one pass settles everything, because marking a tenant removed also empties it; only a removed row whose
   * requests all failed must have been empty before.
   */
  lemma StartUpSettles(cfg: Config, before: Table, tenants: seq<Tenant>, prepared: seq<Option<Prepared>>,
                       stuck: set<string>, s: State, work: seq<Work>, s': State, changed: set<string>)
    requires |prepared| == |tenants| && Synced(cfg.namespace, before, tenants, prepared, stuck, s.table)
    requires Pass(cfg, s, work, s', changed)
    requires forall id | id in before && before[id].removed && Untouched(tenants, prepared, stuck, id) ::
               before[id].sites == map[]
    ensures Settled(cfg, s')
  {
    forall id | id in s.table && s.table[id].removed ensures s.table[id].sites == map[] {
      RowAfterSync(cfg.namespace, before, tenants, prepared, stuck, s.table, id);
    }
    OnePassSettles(cfg, s, work, s', changed);
  }

  // ---------- the cache of active tenants ----------

  datatype EventType = Subscribed | Created | Modified | Deleted

  datatype TenantWatchEvent = TenantWatchEvent(kind: EventType, tenants: seq<Tenant>)

  type Cache = map<string, Tenant>

  function UpdateOne(cache: Cache, tenant: Tenant): Cache {
    if tenant.status == ACTIVE then cache[tenant.externalId := tenant]
    else if tenant.status == SUSPENDED then cache - {tenant.externalId}
    else cache
  }

  /** The mentions of one event take effect one after the other. */
  function AfterMention(cache: Cache, mention: Mention): Cache {
    match mention.kind
    case Modified | Subscribed => UpdateOne(cache, mention.tenant)
    case Deleted => cache - {mention.tenant.externalId}
    case Created => cache
  }

  datatype Mention = Mention(kind: EventType, tenant: Tenant)

  function Mentions(event: TenantWatchEvent): seq<Mention> {
    seq(|event.tenants|, i requires 0 <= i < |event.tenants| => Mention(event.kind, event.tenants[i]))
  }

  function AllMentions(events: seq<TenantWatchEvent>): seq<Mention> {
    if events == [] then [] else AllMentions(events[..|events| - 1]) + Mentions(events[|events| - 1])
  }

  function AfterMentions(cache: Cache, mentions: seq<Mention>): Cache {
    if mentions == [] then cache
        else AfterMention(AfterMentions(cache, mentions[..|mentions| - 1]), mentions[|mentions| - 1])
  }

  lemma {:induction false} AfterMentionsAppend(cache: Cache, a: seq<Mention>, b: seq<Mention>)
    ensures AfterMentions(cache, a + b) == AfterMentions(AfterMentions(cache, a), b)
  {
    if b == [] {
      assert a + b == a;
    } else {
      AfterMentionsAppend(cache, a, b[..|b| - 1]);
      assert (a + b)[..|a + b| - 1] == a + b[..|b| - 1];
    }
  }

  class ActiveTenants {
    var cache: Cache

    constructor ()
      ensures cache == map[]
    {
      cache := map[];
    }

    method UpdateActiveTenantsCache(kind: EventType, tenants: seq<Tenant>)
      requires kind == Modified || kind == Subscribed
      modifies this
      ensures cache == AfterMentions(old(cache), Mentions(TenantWatchEvent(kind, tenants)))
    {
      ghost var mentions := Mentions(TenantWatchEvent(kind, tenants));
      for i := 0 to |tenants|
        invariant cache == AfterMentions(old(cache), mentions[..i])
      {
        assert mentions[..i + 1][..i] == mentions[..i];
        if tenants[i].status == ACTIVE {
          cache := cache[tenants[i].externalId := tenants[i]];
        }
        if tenants[i].status == SUSPENDED {
          cache := cache - {tenants[i].externalId};
        }
      }
      assert mentions[..|tenants|] == mentions;
    }

    method DeleteFromActiveTenantsCache(tenants: seq<Tenant>)
      modifies this
      ensures cache == AfterMentions(old(cache), Mentions(TenantWatchEvent(Deleted, tenants)))
    {
      ghost var mentions := Mentions(TenantWatchEvent(Deleted, tenants));
      for i := 0 to |tenants|
        invariant cache == AfterMentions(old(cache), mentions[..i])
      {
        assert mentions[..i + 1][..i] == mentions[..i];
        cache := cache - {tenants[i].externalId};
      }
      assert mentions[..|tenants|] == mentions;
    }

    /** The callback for every kind of event. */
    method ActualizeActiveTenantsCache(event: TenantWatchEvent)
      modifies this
      ensures cache == AfterMentions(old(cache), Mentions(event))
    {
      if event.kind == Modified || event.kind == Subscribed {
        UpdateActiveTenantsCache(event.kind, event.tenants);
      }
      if event.kind == Deleted {
        DeleteFromActiveTenantsCache(event.tenants);
      }
      if event.kind == Created { CreatedChangesNothing(cache, Mentions(event)); }
    }

    /** Every stored tenant once, in no particular order. */
    method GetActiveTenantsCache() returns (tenants: seq<Tenant>)
      ensures |tenants| == |cache| && forall tenant :: tenant in tenants <==> tenant in cache.Values
    {
      tenants := [];
      var ids := cache.Keys;
      while ids != {}
        invariant ids <= cache.Keys && |tenants| + |ids| == |cache|
        invariant forall tenant :: tenant in tenants <==> exists id | id in cache.Keys - ids :: cache[id] == tenant
        decreases ids
      {
        var id :| id in ids;
        tenants := tenants + [cache[id]];
        ids := ids - {id};
      }
    }
  }

  lemma {:induction false} CreatedChangesNothing(cache: Cache, mentions: seq<Mention>)
    requires forall mention <- mentions :: mention.kind == Created
    ensures AfterMentions(cache, mentions) == cache
  {
    if mentions != [] {
      CreatedChangesNothing(cache, mentions[..|mentions| - 1]);
      assert mentions[|mentions| - 1] in mentions;
    }
  }

  // ---------- any sequence of events ----------

  /** The cache after each of the events so far, the empty one first. */
  ghost predicate Run(caches: seq<Cache>, events: seq<TenantWatchEvent>) {
    && |caches| == |events| + 1 && caches[0] == map[]
    && forall i | 0 <= i < |events| :: caches[i + 1] == AfterMentions(caches[i], Mentions(events[i]))
  }

  predicate Puts(mention: Mention, id: string) {
    mention.tenant.externalId == id && mention.kind in {Modified, Subscribed} && mention.tenant.status == "ACTIVE"
  }

  predicate Takes(mention: Mention, id: string) {
    mention.tenant.externalId == id &&
    (mention.kind == Deleted || (mention.kind in {Modified, Subscribed} && mention.tenant.status == "SUSPENDED"))
  }

  /** The last mention that matters for `id` is the k-th, and it puts the tenant into the cache. */
  ghost predicate LastPut(mentions: seq<Mention>, id: string, k: int) {
    && 0 <= k < |mentions| && Puts(mentions[k], id)
    && forall j | k < j < |mentions| :: !Puts(mentions[j], id) && !Takes(mentions[j], id)
  }

  lemma LastPutStep(before: seq<Mention>, last: Mention, id: string, k: int)
    ensures LastPut(before + [last], id, k) <==>
              if k == |before| then Puts(last, id) else LastPut(before, id, k) && !Puts(last, id) && !Takes(last, id)
  {
    var mentions := before + [last];
    assert mentions[|before|] == last && mentions[..|before|] == before;
    assert forall j | 0 <= j < |before| :: mentions[j] == before[j];
  }

  /** Whether the cache agrees with the mentions about `id`. */
  ghost predicate Agrees(cache: Cache, mentions: seq<Mention>, id: string) {
    && (id in cache ==> exists k :: LastPut(mentions, id, k))
    && (forall k | LastPut(mentions, id, k) :: id in cache && cache[id] == mentions[k].tenant)
  }

  lemma AgreesStep(cache: Cache, before: seq<Mention>, last: Mention, id: string)
    requires Agrees(cache, before, id)
    ensures Agrees(AfterMention(cache, last), before + [last], id)
  {
    var mentions, after := before + [last], AfterMention(cache, last);
    LastPutStep(before, last, id, |before|);
    if id in after && !Puts(last, id) {
      assert !Takes(last, id) && id in cache && after[id] == cache[id];
      var k :| LastPut(before, id, k);
      LastPutStep(before, last, id, k);
    }
    forall k | LastPut(mentions, id, k) ensures id in after && after[id] == mentions[k].tenant {
      LastPutStep(before, last, id, k);
    }
  }

  lemma {:induction false} CacheAfterMentions(mentions: seq<Mention>, id: string)
    ensures Agrees(AfterMentions(map[], mentions), mentions, id)
  {
    if mentions != [] {
      var n := |mentions| - 1;
      CacheAfterMentions(mentions[..n], id);
      AgreesStep(AfterMentions(map[], mentions[..n]), mentions[..n], mentions[n], id);
      assert mentions == mentions[..n] + [mentions[n]];
    }
  }

  lemma {:induction false} RunFollowsMentions(caches: seq<Cache>, events: seq<TenantWatchEvent>, i: nat)
    requires Run(caches, events) && i <= |events|
    ensures caches[i] == AfterMentions(map[], AllMentions(events[..i]))
  {
    if i > 0 {
      RunFollowsMentions(caches, events, i - 1);
      assert events[..i][..i - 1] == events[..i - 1];
      AfterMentionsAppend(map[], AllMentions(events[..i - 1]), Mentions(events[i - 1]));
    }
  }

  /**
   * After any events the cache holds an id exactly when its last relevant mention is an active tenant in a MODIFIED or
   * SUBSCRIBED event with no suspension or deletion after it, and what it holds is that tenant.
   */
  lemma CacheHoldsLastActive(caches: seq<Cache>, events: seq<TenantWatchEvent>, i: nat, id: string)
    requires Run(caches, events) && i <= |events|
    ensures id in caches[i] <==> exists k :: LastPut(AllMentions(events[..i]), id, k)
    ensures forall k | LastPut(AllMentions(events[..i]), id, k) ::
              id in caches[i] && caches[i][id] == AllMentions(events[..i])[k].tenant
  {
    RunFollowsMentions(caches, events, i);
    CacheAfterMentions(AllMentions(events[..i]), id);
  }
}
