/**
 * The synchronizer among its callers: API writers, the bounded wake-up channel, and the consumer that runs
 * passes one step at a time, so that writes fall between any two steps of a pass.
 */
module SyncMachine {
  import opened Strings
  import opened Domain
  import opened SyncPass

  const CHANNEL_SLOTS: nat := 16

  /** Where the consumer stands. A pass goes through the phases from `Received` on in this order. */
  datatype Phase =
    | Idle
    | Received
    | Listing(snapshot: set<TenantDns>)
    | Deleting(snapshot: set<TenantDns>, stale: seq<Route>)
    | Purging(snapshot: set<TenantDns>, rows: seq<TenantDns>)
    | Creating(settings: set<TenantDns>, todo: seq<Work>)

  /**
   * `signals` is the number of occupied channel slots. The rest is history: writes are numbered from 0; `due`
   * are those whose caller has not called Sync yet, `silent` those that never do; writes below `covered` came
   * before the latest first read that succeeded, those below `handled` before the first read of the latest pass
   * that finished without a failed request; `missed` says that a first read failed with no signal waiting and none
   * sent since, `failed` that some request of the latest pass failed, and `lost` that a pass ended with a failed
   * request while no signal was waiting and none was sent since. `base` is what the latest successful first read
   * found, `done` the addresses visited since the latest second read.
   */
  datatype System = System(
    table: Table, routes: Routes, signals: nat, phase: Phase,
    written: nat, due: set<nat>, silent: set<nat>, covered: nat, handled: nat,
    missed: bool, failed: bool, lost: bool, base: SyncPass.State, done: seq<Work>)

  datatype Step =
    | Upsert(row: TenantDns)
    | Register(row: TenantDns)
    | Sync(write: nat)
    | Tick
    | Receive
    | FirstRead
    | FirstReadFails
    | ListRoutes(order: seq<Route>)
    | ListFails
    | DeleteNext(ok: bool)
    | BeginPurge(rowOrder: seq<TenantDns>)
    | PurgeNext(ok: bool)
    | Reread(workOrder: seq<Work>)
    | RereadFails(workOrder: seq<Work>)
    | CreateNext
    | Finish

  /** A send that never blocks: on a full channel the signal is dropped. */
  function Signalled(s: System): System {
    s.(signals := if s.signals < CHANNEL_SLOTS then s.signals + 1 else s.signals, missed := false, lost := false)
  }

  /** The pass takes its snapshot, which covers every write made so far. */
  function AfterFirstRead(s: System): System {
    s.(phase := Listing(s.table.Values), covered := s.written, missed := false, failed := false,
       base := SyncPass.State(s.table, s.routes))
  }

  /** The consumer goes back to waiting after a pass with a failed request. */
  function Ended(s: System): System {
    s.(phase := Idle, failed := true, lost := s.signals == 0)
  }

  ghost predicate Init(cfg: Config, s: System) {
    && WellKeyed(s.routes) && cfg.namespace in s.routes
    && TableValid(s.table)
    && s.signals == 0 && s.phase == Idle
    && s.written == 0 && s.due == {} && s.silent == {} && s.covered == 0 && s.handled == 0
    && !s.missed && s.failed && !s.lost && s.base == SyncPass.State(map[], map[]) && s.done == []
  }

  /** Rows are filed under their tenant id. */
  ghost predicate TableValid(table: Table) {
    forall id | id in table :: table[id].tenantId == id
  }

  /** `order` holds the manageable routes of the examined namespaces. */
  ghost predicate IsListing(order: seq<Route>, cfg: Config, routes: Routes, rows: set<TenantDns>) {
    forall route :: route in order <==>
      (Has(routes, route) && IsExamined(route.metadata.namespace, cfg, rows) && route.IsManageable())
  }

  ghost predicate Next(cfg: Config, s: System, step: Step, s': System) {
    match step
    case Upsert(row) =>
      s' == s.(table := s.table[row.tenantId := row], written := s.written + 1, due := s.due + {s.written})
    case Register(row) =>
      row.tenantId !in s.table &&
      s' == s.(table := s.table[row.tenantId := row], written := s.written + 1, silent := s.silent + {s.written})
    case Sync(write) => write in s.due && s' == Signalled(s).(due := s.due - {write})
    case Tick => s' == Signalled(s)
    case Receive => s.phase == Idle && s.signals > 0 && s' == s.(signals := s.signals - 1, phase := Received)
    case FirstRead =>
      s.phase == Received && s' == AfterFirstRead(s)
    case FirstReadFails =>
      s.phase == Received &&
      s' == Ended(s).(missed := s.signals == 0)
    case ListRoutes(order) =>
      && s.phase.Listing?
      && (forall namespace | IsExamined(namespace, cfg, s.phase.snapshot) :: namespace in s.routes)
      && IsListing(order, cfg, s.routes, s.phase.snapshot)
      && s' == s.(phase := Deleting(s.phase.snapshot, order))
    case ListFails => s.phase.Listing? && s' == Ended(s)
    case DeleteNext(ok) =>
      s.phase.Deleting? && s.phase.stale != [] &&
      (var route, rest := s.phase.stale[0], Deleting(s.phase.snapshot, s.phase.stale[1..]);
       if !Doomed(route, s.phase.snapshot) then s' == s.(phase := rest)
       else if ok then s' == s.(phase := rest, routes := DeleteOne(s.routes, route))
       else s' == s.(phase := rest, failed := true))
    case BeginPurge(rowOrder) =>
      && s.phase.Deleting? && s.phase.stale == []
      && RowSet(rowOrder) == s.phase.snapshot
      && s' == s.(phase := Purging(s.phase.snapshot, rowOrder))
    case PurgeNext(ok) =>
      s.phase.Purging? && s.phase.rows != [] &&
      (var row, rest := s.phase.rows[0], Purging(s.phase.snapshot, s.phase.rows[1..]);
       if !row.removed then s' == s.(phase := rest)
       else if ok then s' == s.(phase := rest, table := DeleteIfRemoved(s.table, row.tenantId))
       else s' == s.(phase := rest, failed := true))
    case Reread(workOrder) =>
      && s.phase.Purging? && s.phase.rows == []
      && Covers(workOrder, s.table.Values)
      && s' == s.(phase := Creating(s.table.Values, workOrder), done := [])
    case RereadFails(workOrder) =>
      && s.phase.Purging? && s.phase.rows == []
      && Covers(workOrder, s.phase.snapshot)
      && s' == s.(phase := Creating(s.phase.snapshot, workOrder), done := [], failed := true)
    case CreateNext =>
      && s.phase.Creating? && s.phase.todo != [] && cfg.namespace in s.routes
      && s' == s.(phase := Creating(s.phase.settings, s.phase.todo[1..]), done := s.done + [s.phase.todo[0]],
                  routes := s.routes[cfg.namespace := CreateOne(cfg, s.phase.todo[0], s.routes[cfg.namespace])])
    case Finish =>
      s.phase.Creating? && s.phase.todo == [] &&
      s' == if s.failed then Ended(s) else s.(phase := Idle, handled := s.covered)
  }

  /** `states` is a run: it starts in an initial state and takes `steps` one after the other. */
  ghost predicate Run(cfg: Config, states: seq<System>, steps: seq<Step>) {
    && |states| == |steps| + 1
    && Init(cfg, states[0])
    && forall i | 0 <= i < |steps| :: Next(cfg, states[i], steps[i], states[i + 1])
  }

  // ---------- what every reachable state keeps ----------

  /** Some write followed by Sync is later than the first read of every pass so far. */
  ghost predicate Uncovered(s: System) {
    exists write: nat :: s.covered <= write < s.written && write !in s.due && write !in s.silent
  }

  ghost predicate Awake(s: System) {
    Uncovered(s) ==> s.signals > 0 || s.phase == Received
  }

  /** Some write followed by Sync came after the first read of every pass that finished without a failed request. */
  ghost predicate Unhandled(s: System) {
    exists write: nat :: s.handled <= write < s.written && write !in s.due && write !in s.silent
  }

  /** A write that no clean pass has handled keeps the consumer busy or a signal waiting. */
  ghost predicate Attended(s: System) {
    Unhandled(s) ==> s.signals > 0 || s.phase != Idle
  }

  ghost predicate Basic(cfg: Config, s: System) {
    && Shape(cfg, s) && s.signals <= CHANNEL_SLOTS && s.handled <= s.covered <= s.written
    && (if s.missed then s.signals == 0 && s.phase == Idle else Awake(s))
    && (if s.lost then s.signals == 0 && s.phase == Idle else Attended(s))
  }

  ghost predicate Shape(cfg: Config, s: System) {
    WellKeyed(s.routes) && cfg.namespace in s.routes && TableValid(s.table)
  }

  /** The route is there, or its generated name belongs to another route. */
  ghost predicate Served(cfg: Config, w: Work, routes: RoutesByKey) {
    w.service in cfg.services ==> HostPresent(Host(w.address), routes) || w.Key(cfg) in routes
  }

  ghost predicate CreatingInv(cfg: Config, s: System) {
    s.phase.Creating? && cfg.namespace in s.routes ==>
      forall w | IsWork(w, s.phase.settings) :: w in s.phase.todo || Served(cfg, w, s.routes[cfg.namespace])
  }

  lemma InitKeeps(cfg: Config, s: System)
    requires Init(cfg, s)
    ensures Basic(cfg, s) && CreatingInv(cfg, s)
  {
  }

  lemma DeleteOneKeepsKeys(routes: Routes, route: Route)
    requires WellKeyed(routes)
    ensures WellKeyed(DeleteOne(routes, route)) && DeleteOne(routes, route).Keys == routes.Keys
  {
  }

  lemma AwakeKept(cfg: Config, s: System, step: Step, s': System)
    requires Basic(cfg, s) && Next(cfg, s, step, s')
    ensures if s'.missed then s'.signals == 0 && s'.phase == Idle else Awake(s')
  {
    if Uncovered(s') && !s'.missed {
      var write: nat :| s'.covered <= write < s'.written && write !in s'.due && write !in s'.silent;
      assert step.Sync? || (s.covered <= write < s.written && write !in s.due && write !in s.silent);
    }
  }

  lemma AttendedKept(cfg: Config, s: System, step: Step, s': System)
    requires Basic(cfg, s) && Next(cfg, s, step, s')
    ensures if s'.lost then s'.signals == 0 && s'.phase == Idle else Attended(s')
  {
    if Unhandled(s') && !s'.lost && s'.phase == Idle {
      var write: nat :| s'.handled <= write < s'.written && write !in s'.due && write !in s'.silent;
      if step.Finish? && !s.failed {
        assert s.covered <= write && Uncovered(s);
      } else {
        assert step.Sync? || (s.handled <= write < s.written && write !in s.due && write !in s.silent);
      }
    }
  }

  lemma BasicKept(cfg: Config, s: System, step: Step, s': System)
    requires Basic(cfg, s) && Next(cfg, s, step, s')
    ensures Basic(cfg, s')
  {
    ShapeKept(cfg, s, step, s');
    AwakeKept(cfg, s, step, s');
    AttendedKept(cfg, s, step, s');
  }

  lemma ShapeKept(cfg: Config, s: System, step: Step, s': System)
    requires Shape(cfg, s) && Next(cfg, s, step, s')
    ensures Shape(cfg, s')
  {
    RoutesShapeKept(cfg, s, step, s');
  }

  lemma RoutesShapeKept(cfg: Config, s: System, step: Step, s': System)
    requires WellKeyed(s.routes) && cfg.namespace in s.routes && Next(cfg, s, step, s')
    ensures WellKeyed(s'.routes) && cfg.namespace in s'.routes
  {
    if step.DeleteNext? { DeleteOneKeepsKeys(s.routes, s.phase.stale[0]); }
  }

  lemma ServedStays(cfg: Config, w: Work, small: RoutesByKey, big: RoutesByKey)
    requires Extends(small, big) && Served(cfg, w, small)
    ensures Served(cfg, w, big)
  {
    if HostPresent(Host(w.address), small) {
      var key :| key in small && small[key].host == Host(w.address);
      assert key in big && big[key].host == Host(w.address);
    }
  }

  lemma CreatingKept(cfg: Config, s: System, step: Step, s': System)
    requires Basic(cfg, s) && CreatingInv(cfg, s) && Next(cfg, s, step, s')
    ensures CreatingInv(cfg, s')
  {
    if step.CreateNext? {
      var w0, routes, routes' := s.phase.todo[0], s.routes[cfg.namespace], s'.routes[cfg.namespace];
      assert Served(cfg, w0, routes');
      forall w | IsWork(w, s.phase.settings) ensures w in s'.phase.todo || Served(cfg, w, routes') {
        if w in s.phase.todo {
          assert w == w0 || w in s.phase.todo[1..];
        } else {
          ServedStays(cfg, w, routes, routes');
        }
      }
    }
  }

  ghost predicate Inv(cfg: Config, s: System) { Basic(cfg, s) && CreatingInv(cfg, s) }

  lemma InvKept(cfg: Config, s: System, step: Step, s': System)
    requires Inv(cfg, s) && Next(cfg, s, step, s')
    ensures Inv(cfg, s')
  {
    BasicKept(cfg, s, step, s');
    CreatingKept(cfg, s, step, s');
  }

  lemma {:induction false} RunKeeps(cfg: Config, states: seq<System>, steps: seq<Step>, i: nat)
    requires Run(cfg, states, steps) && i < |states|
    ensures Inv(cfg, states[i])
  {
    if i == 0 {
      InitKeeps(cfg, states[0]);
    } else {
      RunKeeps(cfg, states, steps, i - 1);
      InvKept(cfg, states[i - 1], steps[i - 1], states[i]);
    }
  }

  // ---------- safety of rows and routes under concurrent writes ----------

  /** Whatever a stale snapshot says, a row vanishes only while the stored row itself is marked removed. */
  lemma RowVanishesOnlyIfRemoved(cfg: Config, s: System, step: Step, s': System, id: string)
    requires Next(cfg, s, step, s') && id in s.table && id !in s'.table
    ensures s.table[id].removed && step.PurgeNext?
  {
  }

  // ---------- a name tells its host, in every reachable state ----------

  /** Every row the table holds at some instant of the run. */
  function RowsSeen(states: seq<System>): set<TenantDns> {
    set i, id | 0 <= i < |states| && id in states[i].table :: states[i].table[id]
  }

  /** Among the rows of a run and the routes it starts with, generated names tell hosts and hosts are lower-case. */
  ghost predicate NamesTellHosts(cfg: Config, states: seq<System>)
    requires |states| > 0 && cfg.namespace in states[0].routes
  {
    NamesFit(cfg, RowsSeen(states), states[0].routes[cfg.namespace])
  }

  ghost predicate NamesFit(cfg: Config, rows: set<TenantDns>, routes: RoutesByKey) {
    NamesAgree(cfg, rows, routes) && HostsAreLower(routes)
  }

  /** What the pass has read are rows of `rows`, and what it has still to visit are addresses of its settings. */
  ghost predicate ReadFrom(rows: set<TenantDns>, phase: Phase) {
    match phase
    case Idle => true
    case Received => true
    case Listing(snapshot) => snapshot <= rows
    case Deleting(snapshot, _) => snapshot <= rows
    case Purging(snapshot, _) => snapshot <= rows
    case Creating(settings, todo) => settings <= rows && forall w <- todo :: IsWork(w, settings)
  }

  lemma ReadFromKept(cfg: Config, rows: set<TenantDns>, s: System, step: Step, s': System)
    requires Next(cfg, s, step, s') && ReadFrom(rows, s.phase) && s.table.Values <= rows
    ensures ReadFrom(rows, s'.phase)
  {
  }

  lemma FewerNamesFit(cfg: Config, rows: set<TenantDns>, routes: RoutesByKey, key: string)
    requires NamesFit(cfg, rows, routes)
    ensures NamesFit(cfg, rows, routes - {key})
  {
  }

  lemma CreatedNameFits(cfg: Config, rows: set<TenantDns>, routes: RoutesByKey, w: Work)
    requires NamesFit(cfg, rows, routes) && IsWork(w, rows)
    ensures NamesFit(cfg, rows, CreateOne(cfg, w, routes))
  {
    ToLowerIdempotent(Host(w.address));
  }

  lemma DeletionKeepsNamesFit(cfg: Config, rows: set<TenantDns>, routes: Routes, route: Route)
    requires cfg.namespace in routes && NamesFit(cfg, rows, routes[cfg.namespace])
    ensures cfg.namespace in DeleteOne(routes, route)
    ensures NamesFit(cfg, rows, DeleteOne(routes, route)[cfg.namespace])
  {
    FewerNamesFit(cfg, rows, routes[cfg.namespace], route.CacheKey());
  }

  lemma NamesFitKept(cfg: Config, rows: set<TenantDns>, s: System, step: Step, s': System)
    requires cfg.namespace in s.routes && NamesFit(cfg, rows, s.routes[cfg.namespace])
    requires Next(cfg, s, step, s') && ReadFrom(rows, s.phase)
    ensures cfg.namespace in s'.routes && NamesFit(cfg, rows, s'.routes[cfg.namespace])
  {
    if step.DeleteNext? {
      DeletionKeepsNamesFit(cfg, rows, s.routes, s.phase.stale[0]);
    }
    if step.CreateNext? {
      var w := s.phase.todo[0];
      assert w in s.phase.todo && IsWork(w, s.phase.settings);
      CreatedNameFits(cfg, rows, s.routes[cfg.namespace], w);
    }
  }

  lemma {:induction false} RunKeepsNames(cfg: Config, states: seq<System>, steps: seq<Step>, i: nat)
    requires Run(cfg, states, steps) && i < |states| && NamesTellHosts(cfg, states)
    ensures cfg.namespace in states[i].routes && ReadFrom(RowsSeen(states), states[i].phase)
    ensures NamesFit(cfg, RowsSeen(states), states[i].routes[cfg.namespace])
  {
    if i > 0 {
      RunKeepsNames(cfg, states, steps, i - 1);
      RunKeeps(cfg, states, steps, i - 1);
      assert states[i - 1].table.Values <= RowsSeen(states);
      ReadFromKept(cfg, RowsSeen(states), states[i - 1], steps[i - 1], states[i]);
      NamesFitKept(cfg, RowsSeen(states), states[i - 1], steps[i - 1], states[i]);
    }
  }

  /** The address has its route or its name is taken; where names tell hosts, it has a route with its host. */
  ghost predicate WorkServed(cfg: Config, w: Work, routes: RoutesByKey, namesTell: bool) {
    && (HostPresent(Host(w.address), routes) || w.Key(cfg) in routes)
    && (namesTell ==> HostPresent(ToLower(Host(w.address)), routes))
  }

  /** Where names tell hosts, a taken name is the name of a route with the wanted host. */
  lemma ServedMeansPublished(cfg: Config, rows: set<TenantDns>, routes: RoutesByKey, w: Work)
    requires NamesFit(cfg, rows, routes) && IsWork(w, rows)
    requires HostPresent(Host(w.address), routes) || w.Key(cfg) in routes
    ensures HostPresent(ToLower(Host(w.address)), routes)
  {
  }

  /**
   * At the end of a pass every available address of its active settings has a route with its host, whatever the pass
   * deleted. Where a generated name does not tell the host, the name may belong to another route instead.
   */
  lemma EndOfPassServesSettings(cfg: Config, states: seq<System>, steps: seq<Step>, i: nat, w: Work)
    requires Run(cfg, states, steps) && i < |states|
    requires states[i].phase.Creating? && states[i].phase.todo == []
    requires IsWork(w, states[i].phase.settings) && w.service in cfg.services
    ensures cfg.namespace in states[i].routes
    ensures WorkServed(cfg, w, states[i].routes[cfg.namespace], NamesTellHosts(cfg, states))
  {
    RunKeeps(cfg, states, steps, i);
    assert w !in states[i].phase.todo;
    if NamesTellHosts(cfg, states) {
      RunKeepsNames(cfg, states, steps, i);
      ServedMeansPublished(cfg, RowsSeen(states), states[i].routes[cfg.namespace], w);
    }
  }

  // ---------- which routes the steps delete, written out ----------

  /** A route to come is annotated, stood in an examined namespace, and no other route has its name. */
  ghost predicate StaleInv(cfg: Config, s: System) {
    s.phase.Deleting? ==> forall route | route in s.phase.stale :: FitsListing(cfg, s.routes, s.phase.snapshot, route)
  }

  ghost predicate FitsListing(cfg: Config, routes: Routes, rows: set<TenantDns>, route: Route) {
    && route.IsManageable() && IsExamined(route.metadata.namespace, cfg, rows)
    && forall other | Has(routes, other) && SameName(other, route) :: other == route
  }

  lemma StaleKept(cfg: Config, s: System, step: Step, s': System)
    requires Shape(cfg, s) && StaleInv(cfg, s) && Next(cfg, s, step, s')
    ensures StaleInv(cfg, s')
  {
    if step.DeleteNext? {
      DeleteOneRemoves(s.routes, s.phase.stale[0]);
      forall route | route in s'.phase.stale ensures FitsListing(cfg, s'.routes, s'.phase.snapshot, route) {
        assert route in s.phase.stale && FitsListing(cfg, s.routes, s.phase.snapshot, route);
      }
    }
  }

  lemma {:induction false} RunKeepsStale(cfg: Config, states: seq<System>, steps: seq<Step>, i: nat)
    requires Run(cfg, states, steps) && i < |states|
    ensures StaleInv(cfg, states[i])
  {
    if i > 0 {
      RunKeepsStale(cfg, states, steps, i - 1);
      RunKeeps(cfg, states, steps, i - 1);
      StaleKept(cfg, states[i - 1], steps[i - 1], states[i]);
    }
  }

  /** No active row of the snapshot lists the host. */
  ghost predicate NobodyLists(rows: set<TenantDns>, host: string) {
    forall row, site, service, address |
      row in rows && row.active && site in row.sites && service in row.sites[site]
          && address in row.sites[site][service] ::
      ToLower(Host(address)) != ToLower(host)
  }

  lemma DeleteNextVanishes(cfg: Config, s: System, ok: bool, s': System, route: Route)
    requires Shape(cfg, s) && StaleInv(cfg, s) && Next(cfg, s, DeleteNext(ok), s') && Has(s.routes, route)
    ensures !Has(s'.routes, route) <==> ok && route == s.phase.stale[0] && Doomed(route, s.phase.snapshot)
  {
    var head := s.phase.stale[0];
    DeleteOneRemoves(s.routes, head);
    assert head in s.phase.stale && FitsListing(cfg, s.routes, s.phase.snapshot, head);
  }

  lemma OthersKeepRoutes(cfg: Config, s: System, step: Step, s': System, route: Route)
    requires Next(cfg, s, step, s') && Has(s.routes, route) && !step.DeleteNext?
    ensures Has(s'.routes, route)
  {
  }

  lemma VanishesStep(cfg: Config, s: System, step: Step, s': System, route: Route)
    requires Shape(cfg, s) && StaleInv(cfg, s) && Next(cfg, s, step, s') && Has(s.routes, route)
    ensures !Has(s'.routes, route) <==>
              step == DeleteNext(true) && route == s.phase.stale[0] && Doomed(route, s.phase.snapshot)
  {
    if step.DeleteNext? {
      DeleteNextVanishes(cfg, s, step.ok, s', route);
    } else {
      OthersKeepRoutes(cfg, s, step, s', route);
    }
  }

  /**
   * In every run a route vanishes with a step if and only if the step is the accepted deletion of just this route, its
   * annotation names a tenant other than GENERAL, and no active row of the snapshot lists its host; its namespace is
   * then the own one or one that a row of the snapshot lists.
   */
  lemma RouteVanishesIff(cfg: Config, states: seq<System>, steps: seq<Step>, i: nat, route: Route)
    requires Run(cfg, states, steps) && i < |steps| && Has(states[i].routes, route)
    ensures !Has(states[i + 1].routes, route) <==>
              && steps[i] == DeleteNext(true) && states[i].phase.stale[0] == route
              && BelongsToTenant(route.metadata.annotations)
              && NobodyLists(states[i].phase.snapshot, route.host)
    ensures !Has(states[i + 1].routes, route) ==>
              var namespace := route.metadata.namespace;
              namespace == cfg.namespace
              || (namespace != "" && exists row :: row in states[i].phase.snapshot && namespace in row.namespaces)
  {
    var s := states[i];
    RunKeeps(cfg, states, steps, i);
    RunKeepsStale(cfg, states, steps, i);
    assert Next(cfg, s, steps[i], states[i + 1]);
    VanishesStep(cfg, s, steps[i], states[i + 1], route);
    if steps[i] == DeleteNext(true) && s.phase.stale[0] == route {
      assert route in s.phase.stale && FitsListing(cfg, s.routes, s.phase.snapshot, route);
      NobodyListsIff(s.phase.snapshot, route.host);
    }
  }

  lemma NobodyListsIff(rows: set<TenantDns>, host: string)
    ensures NobodyLists(rows, host) <==> !HostIsActive(host, rows)
  {
    if !NobodyLists(rows, host) {
      var row, site, service, address :|
        row in rows && row.active && site in row.sites && service in row.sites[site]
        && address in row.sites[site][service] && ToLower(Host(address)) == ToLower(host);
      assert Lists(row, site, service, address);
    }
  }

  predicate Marked(s: System, id: string) { id in s.table && s.table[id].removed }

  lemma UnmarkedRowStep(cfg: Config, s: System, step: Step, s': System, id: string)
    requires Next(cfg, s, step, s') && id in s.table && !Marked(s, id)
    ensures id in s'.table
  {
    if id !in s'.table { RowVanishesOnlyIfRemoved(cfg, s, step, s', id); }
  }

  lemma {:induction false} UnmarkedRowStays(cfg: Config, states: seq<System>, steps: seq<Step>, a: nat, b: nat,
                                            id: string)
    requires Run(cfg, states, steps) && a <= b < |states|
    requires id in states[a].table && forall l | a <= l <= b :: !Marked(states[l], id)
    ensures id in states[b].table
  {
    if a < b {
      UnmarkedRowStays(cfg, states, steps, a, b - 1, id);
      assert !Marked(states[b - 1], id);
      UnmarkedRowStep(cfg, states[b - 1], steps[b - 1], states[b], id);
    }
  }

  lemma SettingsStep(cfg: Config, s: System, step: Step, s': System)
    requires Next(cfg, s, step, s') && s.phase.Creating? && s'.phase.Creating?
    ensures s'.phase.settings == s.phase.settings
  {
  }

  ghost predicate CreatingAt(states: seq<System>, i: nat) { i < |states| && states[i].phase.Creating? }

  lemma {:induction false} SettingsStay(cfg: Config, states: seq<System>, steps: seq<Step>, a: nat, b: nat)
    requires Run(cfg, states, steps) && a <= b < |states|
    requires forall l: nat | a <= l <= b :: CreatingAt(states, l)
    ensures CreatingAt(states, a) && CreatingAt(states, b) && states[b].phase.settings == states[a].phase.settings
    decreases b
  {
    assert CreatingAt(states, b);
    if a < b {
      SettingsStay(cfg, states, steps, a, b - 1);
      SettingsStep(cfg, states[b - 1], steps[b - 1], states[b]);
    }
  }

  ghost predicate RowServed(cfg: Config, row: TenantDns, routes: RoutesByKey, namesTell: bool) {
    forall w | IsWork(w, {row}) && w.service in cfg.services :: WorkServed(cfg, w, routes, namesTell)
  }

  /**
   * A tenant restored at any instant of a pass before its second read, even after the pass saw it removed and
   * deleted its routes, keeps its row, and if it is active the same pass publishes its addresses.
   */
  lemma RestoredTenantSurvives(cfg: Config, states: seq<System>, steps: seq<Step>, restored: nat, reread: nat,
                               end: nat, id: string)
    requires Run(cfg, states, steps) && restored <= reread < end < |states|
    requires id in states[restored].table && forall l | restored <= l <= reread :: !Marked(states[l], id)
    requires steps[reread].Reread? && forall l | reread < l <= end :: states[l].phase.Creating?
    requires states[end].phase.todo == []
    ensures id in states[reread].table && cfg.namespace in states[end].routes
    ensures states[reread].table[id].active ==>
              RowServed(cfg, states[reread].table[id], states[end].routes[cfg.namespace], NamesTellHosts(cfg, states))
  {
    UnmarkedRowStays(cfg, states, steps, restored, reread, id);
    assert forall l: nat | reread + 1 <= l <= end :: CreatingAt(states, l);
    SettingsStay(cfg, states, steps, reread + 1, end);
    assert Next(cfg, states[reread], steps[reread], states[reread + 1]);
    RunKeeps(cfg, states, steps, end);
    var row := states[reread].table[id];
    assert row in states[end].phase.settings;
    if row.active {
      forall w | IsWork(w, {row}) && w.service in cfg.services
        ensures WorkServed(cfg, w, states[end].routes[cfg.namespace], NamesTellHosts(cfg, states))
      {
        EndOfPassServesSettings(cfg, states, steps, end, w);
      }
    }
  }

  // ---------- no lost wake-up ----------

  predicate SendsSignal(step: Step) { step.Sync? || step.Tick? }

  /** No signal was sent after step `l` and before step `i`. */
  ghost predicate SilentSince(steps: seq<Step>, l: int, i: int) {
    forall m | l < m < i && 0 <= m < |steps| :: !SendsSignal(steps[m])
  }

  /** Step `l` is a first read that failed on an empty channel. */
  ghost predicate MissesAt(states: seq<System>, steps: seq<Step>, l: int) {
    0 <= l < |steps| && l < |states| && steps[l].FirstReadFails? && states[l].signals == 0
  }

  /** Step `l` ends a pass with a failed request on an empty channel. */
  ghost predicate LosesAt(states: seq<System>, steps: seq<Step>, l: int) {
    && 0 <= l < |steps| && l < |states| && states[l].signals == 0
    && (steps[l].FirstReadFails? || steps[l].ListFails? || (steps[l].Finish? && states[l].failed))
  }

  ghost predicate MissedBefore(states: seq<System>, steps: seq<Step>, i: int) {
    exists l :: l < i && MissesAt(states, steps, l) && SilentSince(steps, l, i)
  }

  ghost predicate LostBefore(states: seq<System>, steps: seq<Step>, i: int) {
    exists l :: l < i && LosesAt(states, steps, l) && SilentSince(steps, l, i)
  }

  lemma MissedOrLostStep(cfg: Config, s: System, step: Step, s': System)
    requires Basic(cfg, s) && Next(cfg, s, step, s')
    ensures s'.missed <==> (step.FirstReadFails? && s.signals == 0) || (s.missed && !SendsSignal(step))
    ensures s'.lost <==>
              || (s.signals == 0 && (step.FirstReadFails? || step.ListFails? || (step.Finish? && s.failed)))
              || (s.lost && !SendsSignal(step))
  {
  }

  /** Step `j` sets or keeps both flags as it should. */
  ghost predicate Records(states: seq<System>, steps: seq<Step>, j: int) {
    && 0 <= j < |steps| && |states| == |steps| + 1
    && (states[j + 1].missed <==> MissesAt(states, steps, j) || (states[j].missed && !SendsSignal(steps[j])))
    && (states[j + 1].lost <==> LosesAt(states, steps, j) || (states[j].lost && !SendsSignal(steps[j])))
  }

  lemma RunRecords(cfg: Config, states: seq<System>, steps: seq<Step>, j: nat)
    requires Run(cfg, states, steps) && j < |steps|
    ensures Records(states, steps, j)
  {
    RunKeeps(cfg, states, steps, j);
    MissedOrLostStep(cfg, states[j], steps[j], states[j + 1]);
  }

  lemma {:induction false} RecordsMean(states: seq<System>, steps: seq<Step>, i: nat)
    requires |states| == |steps| + 1 && i < |states| && !states[0].missed && !states[0].lost
    requires forall j | 0 <= j < i :: Records(states, steps, j)
    ensures states[i].missed <==> MissedBefore(states, steps, i)
    ensures states[i].lost <==> LostBefore(states, steps, i)
  {
    if i > 0 {
      RecordsMean(states, steps, i - 1);
      BeforeStep(states, steps, i);
      assert Records(states, steps, i - 1);
    }
  }

  /** What `missed` and `lost` record, said over the steps of the run. */
  lemma MissedAndLostMean(cfg: Config, states: seq<System>, steps: seq<Step>, i: nat)
    requires Run(cfg, states, steps) && i < |states|
    ensures states[i].missed <==> MissedBefore(states, steps, i)
    ensures states[i].lost <==> LostBefore(states, steps, i)
  {
    forall j | 0 <= j < i ensures Records(states, steps, j) { RunRecords(cfg, states, steps, j); }
    RecordsMean(states, steps, i);
  }

  lemma BeforeStep(states: seq<System>, steps: seq<Step>, i: nat)
    requires 0 < i <= |steps|
    ensures MissedBefore(states, steps, i) <==>
              MissesAt(states, steps, i - 1) || (MissedBefore(states, steps, i - 1) && !SendsSignal(steps[i - 1]))
    ensures LostBefore(states, steps, i) <==>
              LosesAt(states, steps, i - 1) || (LostBefore(states, steps, i - 1) && !SendsSignal(steps[i - 1]))
  {
    forall l | l < i - 1
      ensures SilentSince(steps, l, i) <==> SilentSince(steps, l, i - 1) && !SendsSignal(steps[i - 1])
    {
      if l < 0 && SilentSince(steps, l, i) { assert !SendsSignal(steps[i - 1]); }
    }
    assert SilentSince(steps, i - 1, i);
  }

  /**
   * Although sends to a full channel are dropped, an uncovered write finds a signal waiting or the consumer about to
   * read, except exactly when a first read failed with the channel empty and nothing has been sent since.
   */
  lemma NoLostWakeUp(cfg: Config, states: seq<System>, steps: seq<Step>, i: nat)
    requires Run(cfg, states, steps) && i < |states|
    requires Uncovered(states[i])
    ensures states[i].signals > 0 || states[i].phase == Received <==> !MissedBefore(states, steps, i)
  {
    RunKeeps(cfg, states, steps, i);
    MissedAndLostMean(cfg, states, steps, i);
  }

  /**
   * More than being read: a write that no pass without a failed request has handled finds a signal waiting or a pass
   * under way, except exactly when a pass failed with the channel empty and nothing has been sent since.
   */
  lemma NoLostWork(cfg: Config, states: seq<System>, steps: seq<Step>, i: nat)
    requires Run(cfg, states, steps) && i < |states|
    requires Unhandled(states[i])
    ensures states[i].signals > 0 || states[i].phase != Idle <==> !LostBefore(states, steps, i)
  {
    RunKeeps(cfg, states, steps, i);
    MissedAndLostMean(cfg, states, steps, i);
  }

  /** A failing first read swallows its signal: four steps after any start a write can wait for no one. */
  lemma FailedReadLosesWakeUp(cfg: Config, s: System, row: TenantDns)
    requires Init(cfg, s)
    ensures exists states: seq<System>, steps: seq<Step> :: Run(cfg, states, steps) && |steps| == 4 && states[0] == s
              && Uncovered(states[4]) && states[4].signals == 0 && states[4].phase == Idle
  {
    var s1 := s.(table := s.table[row.tenantId := row], written := 1, due := {0});
    var s2 := s1.(due := {}, signals := 1);
    var s3 := s2.(signals := 0, phase := Received);
    var s4 := s3.(phase := Idle, missed := true, failed := true, lost := true);
    var states, steps := [s, s1, s2, s3, s4], [Upsert(row), Step.Sync(0), Receive, FirstReadFails];
    assert s1.due - {0} == {} && s.due + {0} == {0};
    assert 0 !in s4.due;
    assert Next(cfg, s, Upsert(row), s1) && Next(cfg, s1, Step.Sync(0), s2);
    assert Next(cfg, s2, Receive, s3) && Next(cfg, s3, FirstReadFails, s4);
    assert Run(cfg, states, steps);
    assert Uncovered(states[4]);
  }

  predicate IsConsumerStep(step: Step) {
    !(step.Upsert? || step.Register? || step.Sync? || step.Tick?)
  }

  /** `states` goes from `s` by steps of the consumer alone. */
  ghost predicate ConsumerRun(cfg: Config, s: System, states: seq<System>, steps: seq<Step>) {
    && |states| == |steps| + 1 && states[0] == s
    && forall i | 0 <= i < |steps| :: IsConsumerStep(steps[i]) && Next(cfg, states[i], steps[i], states[i + 1])
  }

  ghost predicate Orders<T(!new)>(order: seq<T>, items: set<T>) {
    forall item :: item in order <==> item in items
  }

  lemma {:induction false} SomeOrder<T(!new)>(items: set<T>)
    ensures exists order :: Orders(order, items)
  {
    if items == {} {
      assert Orders([], items);
    } else {
      var first :| first in items;
      SomeOrder(items - {first});
      var order :| Orders(order, items - {first});
      assert Orders([first] + order, items);
    }
  }

  lemma SomeVisitOrder(rows: set<TenantDns>)
    ensures exists order :: Covers(order, rows)
  {
    var works := set row, site, service, address |
      row in rows && row.active && site in row.sites && service in row.sites[site]
          && address in row.sites[site][service] ::
      Work(row, site, service, address);
    SomeOrder(works);
    var order :| Orders(order, works);
    forall w ensures w in works <==> IsWork(w, rows) {
      if IsWork(w, rows) { assert Work(w.row, w.site, w.service, w.address) in works; }
    }
    assert Covers(order, rows);
  }

  lemma SomeListOrder(cfg: Config, routes: Routes, rows: set<TenantDns>)
    requires WellKeyed(routes)
    ensures exists order :: IsListing(order, cfg, routes, rows)
  {
    var all := set namespace, key | namespace in routes && key in routes[namespace] :: routes[namespace][key];
    var listed := set route | route in all && IsExamined(route.metadata.namespace, cfg, rows) && route.IsManageable();
    SomeOrder(listed);
    var order :| Orders(order, listed);
    forall route ensures route in all <==> Has(routes, route) {
      if Has(routes, route) { assert routes[route.metadata.namespace][route.CacheKey()] in all; }
    }
    assert IsListing(order, cfg, routes, rows);
  }

  function PhaseRank(phase: Phase): nat {
    match phase
    case Received => 0
    case Idle => 1
    case Creating(_, _) => 2
    case Purging(_, _) => 3
    case Deleting(_, _) => 4
    case Listing(_) => 5
  }

  function Remaining(phase: Phase): nat {
    match phase
    case Creating(_, todo) => |todo|
    case Purging(_, rows) => |rows|
    case Deleting(_, stale) => |stale|
    case _ => 0
  }

  ghost predicate Below(phase: Phase, than: Phase) {
    || PhaseRank(phase) < PhaseRank(than)
    || (PhaseRank(phase) == PhaseRank(than) && Remaining(phase) < Remaining(than))
  }

  predicate CanHelp(step: Step) { IsConsumerStep(step) && !step.FirstReadFails? }

  lemma ConsumerAdvances(cfg: Config, s: System) returns (step: Step, s': System)
    requires Basic(cfg, s) && !s.missed && Uncovered(s) && s.phase != Received
    ensures CanHelp(step) && Next(cfg, s, step, s')
    ensures !s'.missed && Uncovered(s') && s'.written == s.written && Below(s'.phase, s.phase)
  {
    match s.phase
    case Idle =>
      step, s' := Receive, s.(signals := s.signals - 1, phase := Received);
    case Listing(snapshot) =>
      if forall namespace | IsExamined(namespace, cfg, snapshot) :: namespace in s.routes {
        SomeListOrder(cfg, s.routes, snapshot);
        var order :| IsListing(order, cfg, s.routes, snapshot);
        step, s' := ListRoutes(order), s.(phase := Deleting(snapshot, order));
      } else {
        step, s' := ListFails, Ended(s);
      }
    case Deleting(snapshot, stale) =>
      if stale == [] {
        SomeOrder(snapshot);
        var order :| Orders(order, snapshot);
        assert RowSet(order) == snapshot;
        step, s' := BeginPurge(order), s.(phase := Purging(snapshot, order));
      } else {
        step, s' := DeleteNext(true), s.(phase := Deleting(snapshot, stale[1..]),
                                         routes := if Doomed(stale[0], snapshot) then DeleteOne(s.routes, stale[0])
                                             else s.routes);
      }
    case Purging(snapshot, rows) =>
      if rows == [] {
        SomeVisitOrder(s.table.Values);
        var order :| Covers(order, s.table.Values);
        step, s' := Reread(order), s.(phase := Creating(s.table.Values, order), done := []);
      } else {
        step, s' := PurgeNext(true), s.(phase := Purging(snapshot, rows[1..]),
                                        table := if rows[0].removed then DeleteIfRemoved(s.table, rows[0].tenantId)
                                            else s.table);
      }
    case Creating(settings, todo) =>
      if todo == [] {
        step, s' := Finish, if s.failed then Ended(s) else s.(phase := Idle, handled := s.covered);
      } else {
        step, s' := CreateNext, s.(phase := Creating(settings, todo[1..]), done := s.done + [todo[0]],
                                   routes := s.routes[cfg.namespace :=
                                       CreateOne(cfg, todo[0], s.routes[cfg.namespace])]);
      }
  }

  /** Every step of the consumer but a failing first read covers the waiting writes or comes nearer to covering them. */
  lemma ConsumerStepProgresses(cfg: Config, s: System, step: Step, s': System)
    requires Basic(cfg, s) && !s.missed && Uncovered(s)
    requires CanHelp(step) && Next(cfg, s, step, s')
    ensures s'.written == s.written
    ensures s'.covered == s.written || (Below(s'.phase, s.phase) && !s'.missed && Uncovered(s'))
  {
    if s'.covered != s.written {
      assert s'.covered == s.covered && s'.due == s.due && s'.silent == s.silent;
    }
  }

  ghost predicate HelpingRun(cfg: Config, s: System, states: seq<System>, steps: seq<Step>) {
    ConsumerRun(cfg, s, states, steps) && forall i | 0 <= i < |steps| :: CanHelp(steps[i])
  }

  ghost predicate Covered(states: seq<System>, written: nat) {
    exists i :: 0 <= i < |states| && states[i].covered == written
  }

  /** Along every run of the consumer without a failing first read the measure falls until all writes are covered. */
  lemma {:induction false} HelpingRunShrinks(cfg: Config, s: System, states: seq<System>, steps: seq<Step>)
    requires Basic(cfg, s) && !s.missed && Uncovered(s) && HelpingRun(cfg, s, states, steps)
    ensures var last := states[|steps|];
            Covered(states, s.written)
            || (Basic(cfg, last) && !last.missed && Uncovered(last) && last.written == s.written
                && (|steps| > 0 ==> Below(last.phase, s.phase)))
    decreases |steps|
  {
    if |steps| > 0 {
      var n := |steps| - 1;
      var fewer := states[..n + 1];
      assert forall i | 0 <= i < n :: steps[..n][i] == steps[i];
      assert forall i | 0 <= i <= n :: fewer[i] == states[i];
      HelpingRunShrinks(cfg, s, fewer, steps[..n]);
      assert forall i | 0 <= i < |fewer| :: fewer[i] == states[i];
      if !Covered(fewer, s.written) {
        assert states[n] == fewer[n];
        ConsumerStepProgresses(cfg, states[n], steps[n], states[n + 1]);
        BasicKept(cfg, states[n], steps[n], states[n + 1]);
      }
    }
  }

  /** The consumer by itself has no further step to take, but for a failing first read. */
  ghost predicate Stuck(cfg: Config, s: System) {
    forall step, s' | Next(cfg, s, step, s') :: !CanHelp(step)
  }

  /** Every run of the consumer alone, without a failing first read and taken as far as it goes, covers all writes. */
  lemma EveryConsumerRunCovers(cfg: Config, s: System, states: seq<System>, steps: seq<Step>)
    requires Basic(cfg, s) && !s.missed && Uncovered(s)
    requires HelpingRun(cfg, s, states, steps) && Stuck(cfg, states[|steps|])
    ensures Covered(states, s.written)
  {
    HelpingRunShrinks(cfg, s, states, steps);
    var last := states[|steps|];
    if !Covered(states, s.written) {
      if last.phase == Received {
        assert Next(cfg, last, FirstRead, AfterFirstRead(last));
      } else {
        var _, _ := ConsumerAdvances(cfg, last);
      }
    }
  }

  /** From any reachable state the consumer by itself comes to a first read that covers every write made so far. */
  lemma {:induction false} ConsumerCoversAlone(cfg: Config, s: System)
    requires Basic(cfg, s) && !s.missed && Uncovered(s)
    ensures exists states: seq<System>, steps: seq<Step> ::
              ConsumerRun(cfg, s, states, steps) && states[|steps|].covered == s.written
    decreases PhaseRank(s.phase), Remaining(s.phase)
  {
    if s.phase == Received {
      var s' := AfterFirstRead(s);
      assert ConsumerRun(cfg, s, [s, s'], [FirstRead]);
    } else {
      var step, s' := ConsumerAdvances(cfg, s);
      BasicKept(cfg, s, step, s');
      ConsumerCoversAlone(cfg, s');
      var states: seq<System>, steps: seq<Step> :|
          ConsumerRun(cfg, s', states, steps) && states[|steps|].covered == s.written;
      var longer, more := [s] + states, [step] + steps;
      forall i | 0 <= i < |more| ensures IsConsumerStep(more[i]) && Next(cfg, longer[i], more[i], longer[i + 1]) {
        if i > 0 { assert more[i] == steps[i - 1] && longer[i] == states[i - 1] && longer[i + 1] == states[i]; }
      }
      assert ConsumerRun(cfg, s, longer, more);
      assert longer[|more|] == states[|steps|];
    }
  }

  // ---------- an undisturbed pass, and what holds at rest ----------

  /** Nothing was written since the first read of the latest pass, and none of its requests failed. */
  ghost predicate Quiet(s: System) { s.covered == s.written && !s.failed }

  ghost predicate InOrder(done: seq<Work>, todo: seq<Work>, rows: set<TenantDns>) { Covers(done + todo, rows) }

  /** After the visits `done` table and routes are what a pass without writers makes of `base`. */
  ghost predicate PassedSoFar(cfg: Config, base: SyncPass.State, done: seq<Work>, table: Table, routes: Routes) {
    var pruned := Prune(cfg, base.table.Values, base.routes);
    && Loaded(cfg, base) && table == DropRemoved(base.table)
    && cfg.namespace in pruned
    && routes == pruned[cfg.namespace := CreateAll(cfg, done, pruned[cfg.namespace])]
  }

  /** The stale routes that are still there are still to come, and all to come are examined routes of the start. */
  ghost predicate DeletedSoFar(cfg: Config, base: SyncPass.State, routes: Routes, stale: seq<Route>) {
    var rows := base.table.Values;
    && Pruning(cfg, rows, base.routes, routes)
    && (forall route <- stale :: Has(base.routes, route) && IsExamined(route.metadata.namespace, cfg, rows))
    && (forall route | Has(routes, route) && IsExamined(route.metadata.namespace, cfg, rows) && Doomed(route, rows) ::
          route in stale)
  }

  /** Only removed rows are missing, and those not missing are still to come. */
  ghost predicate PurgedSoFar(before: Table, table: Table, rows: seq<TenantDns>) {
    && (forall id | id in table :: id in before && table[id] == before[id] && (table[id].removed ==> table[id] in rows))
    && (forall id | id in before && id !in table :: before[id].removed)
  }

  /** How far an undisturbed pass has come from what its first read found. */
  ghost predicate Progress(cfg: Config, s: System) {
    match s.phase
    case Idle => PassedSoFar(cfg, s.base, s.done, s.table, s.routes) && InOrder(s.done, [], s.table.Values)
    case Received => true
    case Listing(snapshot) => snapshot == s.table.Values && s.base == SyncPass.State(s.table, s.routes)
    case Deleting(snapshot, stale) =>
      && snapshot == s.base.table.Values && s.table == s.base.table && Loaded(cfg, s.base)
      && DeletedSoFar(cfg, s.base, s.routes, stale)
    case Purging(snapshot, rows) =>
      && snapshot == s.base.table.Values && Loaded(cfg, s.base)
      && s.routes == Prune(cfg, s.base.table.Values, s.base.routes)
      && PurgedSoFar(s.base.table, s.table, rows)
    case Creating(settings, todo) =>
      && settings == s.table.Values && PassedSoFar(cfg, s.base, s.done, s.table, s.routes)
      && InOrder(s.done, todo, settings)
  }

  lemma DeletionProgresses(cfg: Config, base: SyncPass.State, routes: Routes, stale: seq<Route>)
    requires stale != [] && DeletedSoFar(cfg, base, routes, stale)
    ensures DeletedSoFar(cfg, base, if Doomed(stale[0], base.table.Values) then DeleteOne(routes, stale[0]) else routes,
                         stale[1..])
  {
    var rows := base.table.Values;
    assert stale[0] in stale && stale == [stale[0]] + stale[1..];
    if Doomed(stale[0], rows) { PruningStep(cfg, rows, base.routes, routes, stale[0]); }
  }

  lemma ListingProgresses(cfg: Config, base: SyncPass.State, order: seq<Route>)
    requires WellKeyed(base.routes) && IsListing(order, cfg, base.routes, base.table.Values)
    ensures DeletedSoFar(cfg, base, base.routes, order)
  {
  }

  lemma DeletionEnds(cfg: Config, base: SyncPass.State, routes: Routes)
    requires DeletedSoFar(cfg, base, routes, [])
    ensures routes == Prune(cfg, base.table.Values, base.routes)
  {
    PruningDone(cfg, base.table.Values, base.routes, routes);
  }

  lemma PurgeProgresses(before: Table, table: Table, rows: seq<TenantDns>)
    requires TableValid(before) && rows != [] && PurgedSoFar(before, table, rows)
    ensures PurgedSoFar(before, if rows[0].removed then DeleteIfRemoved(table, rows[0].tenantId) else table, rows[1..])
  {
    var row := rows[0];
    assert rows == [row] + rows[1..];
    forall id | id in table && table[id].removed ensures table[id] == row || table[id] in rows[1..] {
      assert table[id] in rows;
    }
  }

  lemma PurgeBegins(table: Table, rowOrder: seq<TenantDns>)
    requires RowSet(rowOrder) == table.Values
    ensures PurgedSoFar(table, table, rowOrder)
  {
    forall id | id in table ensures table[id] in rowOrder { assert table[id] in RowSet(rowOrder); }
  }

  lemma PurgeEnds(before: Table, table: Table)
    requires PurgedSoFar(before, table, [])
    ensures table == DropRemoved(before)
  {
  }

  lemma CreationProgresses(cfg: Config, base: SyncPass.State, done: seq<Work>, todo: seq<Work>, table: Table,
                           routes: Routes)
    requires todo != [] && PassedSoFar(cfg, base, done, table, routes) && InOrder(done, todo, table.Values)
    ensures cfg.namespace in routes
    ensures PassedSoFar(cfg, base, done + [todo[0]], table,
                        routes[cfg.namespace := CreateOne(cfg, todo[0], routes[cfg.namespace])])
    ensures InOrder(done + [todo[0]], todo[1..], table.Values)
  {
    var pruned := Prune(cfg, base.table.Values, base.routes);
    CreateAllSnoc(cfg, done, todo[0], pruned[cfg.namespace]);
    assert done + [todo[0]] + todo[1..] == done + todo;
  }

  lemma EarlyProgressKept(cfg: Config, s: System, step: Step, s': System)
    requires Shape(cfg, s) && Progress(cfg, s) && Next(cfg, s, step, s') && Quiet(s')
    requires step.ListRoutes? || step.DeleteNext? || step.BeginPurge?
    ensures Progress(cfg, s')
  {
    match step {
      case ListRoutes(order) => ListingProgresses(cfg, s.base, order);
      case DeleteNext(_) => DeletionProgresses(cfg, s.base, s.routes, s.phase.stale);
      case BeginPurge(rowOrder) =>
        DeletionEnds(cfg, s.base, s.routes);
        PurgeBegins(s.table, rowOrder);
      case _ =>
    }
  }

  lemma PurgingProgressKept(cfg: Config, s: System, step: Step, s': System)
    requires TableValid(s.base.table) && cfg.namespace in s.base.routes
    requires Progress(cfg, s) && Next(cfg, s, step, s') && Quiet(s')
    requires step.PurgeNext? || step.Reread?
    ensures Progress(cfg, s')
  {
    if step.PurgeNext? {
      PurgeProgresses(s.base.table, s.table, s.phase.rows);
    } else {
      PurgeEnds(s.base.table, s.table);
      assert [] + step.workOrder == step.workOrder;
      assert s.routes == s.routes[cfg.namespace := CreateAll(cfg, [], s.routes[cfg.namespace])];
    }
  }

  lemma CreatingProgressKept(cfg: Config, s: System, step: Step, s': System)
    requires Progress(cfg, s) && Next(cfg, s, step, s') && Quiet(s')
    requires step.CreateNext? || step.Finish?
    ensures Progress(cfg, s')
  {
    if step.CreateNext? { CreationProgresses(cfg, s.base, s.done, s.phase.todo, s.table, s.routes); }
  }

  /** What the first read found had the shape of every state. */
  ghost predicate BaseShape(cfg: Config, s: System) {
    s.failed || (TableValid(s.base.table) && WellKeyed(s.base.routes) && cfg.namespace in s.base.routes)
  }

  lemma BaseShapeKept(cfg: Config, s: System, step: Step, s': System)
    requires Shape(cfg, s) && BaseShape(cfg, s) && Next(cfg, s, step, s')
    ensures BaseShape(cfg, s')
  {
  }

  lemma ProgressKept(cfg: Config, s: System, step: Step, s': System)
    requires Basic(cfg, s) && BaseShape(cfg, s) && Next(cfg, s, step, s')
    requires Quiet(s) ==> Progress(cfg, s)
    ensures Quiet(s') ==> Progress(cfg, s')
  {
    if Quiet(s') && Quiet(s) {
      if step.ListRoutes? || step.DeleteNext? || step.BeginPurge? {
        EarlyProgressKept(cfg, s, step, s');
      } else if step.PurgeNext? || step.Reread? {
        PurgingProgressKept(cfg, s, step, s');
      } else if step.CreateNext? || step.Finish? {
        CreatingProgressKept(cfg, s, step, s');
      }
    }
  }

  lemma {:induction false} RunProgresses(cfg: Config, states: seq<System>, steps: seq<Step>, i: nat)
    requires Run(cfg, states, steps) && i < |states|
    ensures BaseShape(cfg, states[i]) && (Quiet(states[i]) ==> Progress(cfg, states[i]))
  {
    if i > 0 {
      RunProgresses(cfg, states, steps, i - 1);
      RunKeeps(cfg, states, steps, i - 1);
      BaseShapeKept(cfg, states[i - 1], steps[i - 1], states[i]);
      ProgressKept(cfg, states[i - 1], steps[i - 1], states[i]);
    }
  }

  lemma BaseStep(cfg: Config, s: System, step: Step, s': System)
    requires Next(cfg, s, step, s')
    ensures if step.FirstRead? then s'.base == SyncPass.State(s.table, s.routes)
            else s'.base == s.base && (s.failed ==> s'.failed)
  {
  }

  /** Unless a request failed, `base` is what some first read of the run found. */
  lemma {:induction false} BaseWasRead(cfg: Config, states: seq<System>, steps: seq<Step>, i: nat)
    requires Run(cfg, states, steps) && i < |states| && !states[i].failed
    ensures exists l :: 0 <= l < i && steps[l].FirstRead?
              && states[i].base == SyncPass.State(states[l].table, states[l].routes)
  {
    if i > 0 {
      BaseStep(cfg, states[i - 1], steps[i - 1], states[i]);
      if !steps[i - 1].FirstRead? { BaseWasRead(cfg, states, steps, i - 1); }
    }
  }

  /** No signal waits, no pass runs and no write still has to be announced. */
  ghost predicate Quiescent(s: System) {
    && s.signals == 0 && s.phase == Idle
    && forall write: nat | s.covered <= write < s.written :: write !in s.due && write !in s.silent
  }

  lemma WaitingWriteIsUncovered(s: System)
    requires s.covered < s.written
    requires forall write: nat | s.covered <= write < s.written :: write !in s.due && write !in s.silent
    ensures Uncovered(s)
  {
    assert s.covered !in s.due;
  }

  /** At rest, with no failed request in the latest pass, that pass was undisturbed: it is a pass without writers. */
  lemma RestFollowsPass(cfg: Config, states: seq<System>, steps: seq<Step>, i: nat) returns (changed: set<string>)
    requires Run(cfg, states, steps) && i < |states|
    requires Quiescent(states[i]) && !states[i].failed
    ensures var s := states[i]; Pass(cfg, s.base, s.done, SyncPass.State(s.table, s.routes), changed)
  {
    var s := states[i];
    RunKeeps(cfg, states, steps, i);
    RunProgresses(cfg, states, steps, i);
    MissedMeansFailed(cfg, states, steps, i);
    if s.covered < s.written { WaitingWriteIsUncovered(s); }
    assert s.done + [] == s.done;
    changed := Requested(cfg, s.done, Prune(cfg, s.base.table.Values, s.base.routes)[cfg.namespace]);
  }

  /** Every removed row of the table lists no site. */
  ghost predicate RemovedAreEmpty(table: Table) {
    forall id | id in table && table[id].removed :: table[id].sites == map[]
  }

  /**
   * In every run, whenever writers and consumer are at rest and no request of the latest pass failed, table and routes
   * have converged if and only if no route was stranded when that pass first read the table; that is so whenever the
   * rows then marked removed listed no sites. However the writes fell between the steps of the passes before makes no
   * difference. `QuiescentMeansServed` says more of the wanted routes.
   */
  lemma QuiescentMeansConverged(cfg: Config, states: seq<System>, steps: seq<Step>, i: nat)
    requires Run(cfg, states, steps) && i < |states|
    requires Quiescent(states[i]) && !states[i].failed
    ensures Converged(cfg, SyncPass.State(states[i].table, states[i].routes))
            <==> forall namespace, key :: !Stranded(cfg, states[i].base, namespace, key)
    ensures RemovedAreEmpty(states[i].base.table) ==> Converged(cfg, SyncPass.State(states[i].table, states[i].routes))
  {
    var s := states[i];
    var end := SyncPass.State(s.table, s.routes);
    var changed := RestFollowsPass(cfg, states, steps, i);
    OnePassSettlesIff(cfg, s.base, s.done, end, changed);
    SettledIffConverged(cfg, end);
    if RemovedAreEmpty(s.base.table) { OnePassSettles(cfg, s.base, s.done, end, changed); }
  }

  /** A start with one removed row that lists `host`, and the route made for it. */
  ghost function StrandingStart(cfg: Config, host: string, id: string): System {
    var strand := StrandingState(cfg, host, id);
    System(strand.table, strand.routes, 0, Idle, 0, {}, {}, 0, 0, false, true, false, SyncPass.State(map[], map[]), [])
  }

  /** The states of one pass from such a start. */
  ghost function StrandingStates(cfg: Config, host: string, id: string): seq<System> {
    var s0 := StrandingStart(cfg, host, id);
    var row, route := s0.table[id], s0.routes[cfg.namespace]["Route/web"];
    var s1 := Signalled(s0);
    var s2 := s1.(signals := 0, phase := Received);
    var s3 := AfterFirstRead(s2);
    var s7 := s3.(phase := Purging({row}, []), table := map[]);
    [s0, s1, s2, s3, s3.(phase := Deleting({row}, [route])), s3.(phase := Deleting({row}, [])),
     s3.(phase := Purging({row}, [row])), s7, s7.(phase := Creating({}, [])), s7.(phase := Idle)]
  }

  /** What the steps of that pass need to know about its start. */
  lemma StrandingPass(cfg: Config, host: string, id: string)
    requires id != GENERAL
    ensures var s := StrandingState(cfg, host, id);
            var row, route := s.table[id], s.routes[cfg.namespace]["Route/web"];
            && s.table.Values == {row} && row.removed && row.tenantId == id && DeleteIfRemoved(s.table, id) == map[]
            && WellKeyed(s.routes) && !Doomed(route, {row}) && IsListing([route], cfg, s.routes, {row})
                 && Loaded(cfg, s)
            && RowSet([row]) == {row} && Covers([], {})
            && !Settled(cfg, SyncPass.State(map[], s.routes))
  {
    OnePassCanStrand(cfg, host, id);
    var s := StrandingState(cfg, host, id);
    var row, route := s.table[id], s.routes[cfg.namespace]["Route/web"];
    assert Lists(row, DEFAULT_SITE, "web", host);
    assert s.table.Values == {row};
    assert route.CacheKey() == "Route/web";
  }

  /** Some run of `n` steps leads from `start` to `s`. */
  ghost predicate Reaches(cfg: Config, start: System, n: nat, s: System) {
    exists states: seq<System>, steps: seq<Step> ::
      Run(cfg, states, steps) && |steps| == n && states[0] == start && states[n] == s
  }

  lemma ReachNext(cfg: Config, start: System, n: nat, s: System, step: Step, s': System)
    requires Reaches(cfg, start, n, s) && Next(cfg, s, step, s')
    ensures Reaches(cfg, start, n + 1, s')
  {
    var states: seq<System>, steps: seq<Step> :|
      Run(cfg, states, steps) && |steps| == n && states[0] == start && states[n] == s;
    var longer, more := states + [s'], steps + [step];
    forall i | 0 <= i < |more| ensures Next(cfg, longer[i], more[i], longer[i + 1]) {
      if i < n { assert Next(cfg, states[i], steps[i], states[i + 1]); }
    }
    assert Run(cfg, longer, more);
  }

  lemma StrandingWakes(cfg: Config, host: string, id: string)
    requires id != GENERAL
    ensures var s := StrandingStates(cfg, host, id); Reaches(cfg, s[0], 1, s[1])
  {
    var s := StrandingStates(cfg, host, id);
    StrandingPass(cfg, host, id);
    assert Run(cfg, [s[0]], []);
    ReachNext(cfg, s[0], 0, s[0], Tick, s[1]);
  }

  lemma StrandingReads(cfg: Config, host: string, id: string)
    requires id != GENERAL
    ensures var s := StrandingStates(cfg, host, id); Reaches(cfg, s[0], 3, s[3])
  {
    var s := StrandingStates(cfg, host, id);
    StrandingWakes(cfg, host, id);
    ReachNext(cfg, s[0], 1, s[1], Receive, s[2]);
    ReachNext(cfg, s[0], 2, s[2], FirstRead, s[3]);
  }

  lemma StrandingDeletes(cfg: Config, host: string, id: string)
    requires id != GENERAL
    ensures var s := StrandingStates(cfg, host, id); Reaches(cfg, s[0], 5, s[5])
  {
    var s := StrandingStates(cfg, host, id);
    var route := s[0].routes[cfg.namespace]["Route/web"];
    StrandingPass(cfg, host, id);
    StrandingReads(cfg, host, id);
    ReachNext(cfg, s[0], 3, s[3], ListRoutes([route]), s[4]);
    assert s[4].phase.stale[1..] == [];
    ReachNext(cfg, s[0], 4, s[4], DeleteNext(true), s[5]);
  }

  lemma StrandingPurges(cfg: Config, host: string, id: string)
    requires id != GENERAL
    ensures var s := StrandingStates(cfg, host, id); Reaches(cfg, s[0], 7, s[7])
  {
    var s := StrandingStates(cfg, host, id);
    StrandingPass(cfg, host, id);
    StrandingDeletes(cfg, host, id);
    ReachNext(cfg, s[0], 5, s[5], BeginPurge([s[0].table[id]]), s[6]);
    assert s[6].phase.rows[1..] == [];
    ReachNext(cfg, s[0], 6, s[6], PurgeNext(true), s[7]);
  }

  lemma StrandingEnds(cfg: Config, host: string, id: string)
    requires id != GENERAL
    ensures var s := StrandingStates(cfg, host, id); Reaches(cfg, s[0], 9, s[9])
  {
    var s := StrandingStates(cfg, host, id);
    StrandingPass(cfg, host, id);
    StrandingPurges(cfg, host, id);
    assert s[7].table.Values == {};
    ReachNext(cfg, s[0], 7, s[7], Reread([]), s[8]);
    ReachNext(cfg, s[0], 8, s[8], Finish, s[9]);
  }

  /** From such a start one pass of nine steps, with no request failing, comes to rest with a route nobody asks for. */
  lemma RestCanStrand(cfg: Config, host: string, id: string)
    requires id != GENERAL
    ensures exists end :: Reaches(cfg, StrandingStart(cfg, host, id), 9, end)
              && Quiescent(end) && !end.failed && !Converged(cfg, SyncPass.State(end.table, end.routes))
  {
    var s := StrandingStates(cfg, host, id);
    StrandingPass(cfg, host, id);
    StrandingEnds(cfg, host, id);
    SettledIffConverged(cfg, SyncPass.State(s[9].table, s[9].routes));
    assert s[0] == StrandingStart(cfg, host, id);
  }

  // ---------- the consumer comes to rest ----------

  /** The phases in the order a pass takes them, the last one highest. */
  function StepsLeft(phase: Phase): nat {
    match phase
    case Idle => 0
    case Creating(_, _) => 1
    case Purging(_, _) => 2
    case Deleting(_, _) => 3
    case Listing(_) => 4
    case Received => 5
  }

  ghost predicate Lower(s: System, than: System) {
    || s.signals < than.signals
    || (s.signals == than.signals && StepsLeft(s.phase) < StepsLeft(than.phase))
    || (s.signals == than.signals && StepsLeft(s.phase) == StepsLeft(than.phase)
        && Remaining(s.phase) < Remaining(than.phase))
  }

  /** Every step of the consumer, failing or not, lowers a measure, so by itself it always comes to rest. */
  lemma ConsumerStepLowers(cfg: Config, s: System, step: Step, s': System)
    requires IsConsumerStep(step) && Next(cfg, s, step, s')
    ensures Lower(s', s)
  {
  }

  /** The consumer can take no step. */
  ghost predicate AtRest(cfg: Config, s: System) {
    forall step, s' | Next(cfg, s, step, s') :: !IsConsumerStep(step)
  }

  /** A consumer that can take no step waits for a signal. */
  lemma RestMeansIdle(cfg: Config, s: System)
    requires Shape(cfg, s) && AtRest(cfg, s)
    ensures s.phase == Idle && s.signals == 0
  {
    if s.phase != Idle || s.signals > 0 { ConsumerGoesOn(cfg, s); }
  }

  lemma ConsumerGoesOn(cfg: Config, s: System)
    requires Shape(cfg, s) && (s.phase != Idle || s.signals > 0)
    ensures !AtRest(cfg, s)
  {
    match s.phase
    case Idle =>
      assert Next(cfg, s, Receive, s.(signals := s.signals - 1, phase := Received));
    case Received => assert Next(cfg, s, FirstRead, AfterFirstRead(s));
    case Listing(_) => assert Next(cfg, s, ListFails, Ended(s));
    case Deleting(snapshot, stale) => DeletingGoesOn(cfg, s);
    case Purging(snapshot, rows) => PurgingGoesOn(cfg, s);
    case Creating(settings, todo) =>
      if todo == [] {
        assert Next(cfg, s, Finish, if s.failed then Ended(s) else s.(phase := Idle, handled := s.covered));
      } else {
        var next := s.(phase := Creating(settings, todo[1..]), done := s.done + [todo[0]],
                       routes := s.routes[cfg.namespace := CreateOne(cfg, todo[0], s.routes[cfg.namespace])]);
        assert Next(cfg, s, CreateNext, next);
      }
  }

  lemma DeletingGoesOn(cfg: Config, s: System)
    requires s.phase.Deleting?
    ensures !AtRest(cfg, s)
  {
    var snapshot, stale := s.phase.snapshot, s.phase.stale;
    if stale == [] {
      SomeOrder(snapshot);
      var order :| Orders(order, snapshot);
      assert RowSet(order) == snapshot;
      assert Next(cfg, s, BeginPurge(order), s.(phase := Purging(snapshot, order)));
    } else {
      var routes := if Doomed(stale[0], snapshot) then DeleteOne(s.routes, stale[0]) else s.routes;
      assert Next(cfg, s, DeleteNext(true), s.(phase := Deleting(snapshot, stale[1..]), routes := routes));
    }
  }

  lemma PurgingGoesOn(cfg: Config, s: System)
    requires s.phase.Purging?
    ensures !AtRest(cfg, s)
  {
    var snapshot, rows := s.phase.snapshot, s.phase.rows;
    if rows == [] {
      SomeVisitOrder(s.table.Values);
      var order :| Covers(order, s.table.Values);
      assert Next(cfg, s, Reread(order), s.(phase := Creating(s.table.Values, order), done := []));
    } else {
      var table := if rows[0].removed then DeleteIfRemoved(s.table, rows[0].tenantId) else s.table;
      assert Next(cfg, s, PurgeNext(true), s.(phase := Purging(snapshot, rows[1..]), table := table));
    }
  }

  /** A step of the consumer in which no request fails. */
  predicate GoesWell(step: Step) {
    && IsConsumerStep(step) && !step.FirstReadFails? && !step.ListFails? && !step.RereadFails?
    && (step.DeleteNext? ==> step.ok) && (step.PurgeNext? ==> step.ok)
  }

  /** No write is still to be announced, and a pass that failed will be followed by another one. */
  ghost predicate Promising(s: System) {
    s.due == {} && s.silent == {} && !s.lost && (s.failed ==> s.signals > 0 || s.phase == Received)
  }

  lemma PromisingKept(cfg: Config, s: System, step: Step, s': System)
    requires Basic(cfg, s) && Promising(s) && GoesWell(step) && Next(cfg, s, step, s')
    ensures Promising(s') && s'.written == s.written
  {
  }

  lemma {:induction false} PromisingStays(cfg: Config, states: seq<System>, steps: seq<Step>, from: nat, i: nat)
    requires Run(cfg, states, steps) && from <= i < |states| && Promising(states[from])
    requires forall l | from <= l < i :: GoesWell(steps[l])
    ensures Promising(states[i]) && states[i].written == states[from].written
  {
    if from < i {
      PromisingStays(cfg, states, steps, from, i - 1);
      RunKeeps(cfg, states, steps, i - 1);
      PromisingKept(cfg, states[i - 1], steps[i - 1], states[i]);
    }
  }

  /**
   * When the writers stop and the consumer goes on without a failing request as far as it can, every run ends
   * quiescent, with every write handled by a pass without a failed request.
   */
  lemma EveryWriteIsHandled(cfg: Config, states: seq<System>, steps: seq<Step>, from: nat)
    requires Run(cfg, states, steps) && from <= |steps| && Promising(states[from])
    requires forall l | from <= l < |steps| :: GoesWell(steps[l])
    requires AtRest(cfg, states[|steps|])
    ensures var end := states[|steps|];
            Quiescent(end) && !end.failed && end.handled == end.written == states[from].written
  {
    var end := states[|steps|];
    RunKeeps(cfg, states, steps, |steps|);
    PromisingStays(cfg, states, steps, from, |steps|);
    RestMeansIdle(cfg, end);
    NotHandledIsUnhandled(end);
  }

  lemma NotHandledIsUnhandled(s: System)
    ensures s.due == {} && s.silent == {} && s.handled < s.written ==> Unhandled(s)
  {
    if s.due == {} && s.silent == {} && s.handled < s.written { assert s.handled !in s.due; }
  }

  /** At rest every available address of an active tenant is served, with its own host where names tell hosts. */
  lemma QuiescentMeansServed(cfg: Config, states: seq<System>, steps: seq<Step>, i: nat)
    requires Run(cfg, states, steps) && i < |states|
    requires Quiescent(states[i]) && !states[i].failed
    ensures cfg.namespace in states[i].routes
    ensures forall w | IsWork(w, states[i].table.Values) && w.service in cfg.services ::
              WorkServed(cfg, w, states[i].routes[cfg.namespace], NamesTellHosts(cfg, states))
    ensures NamesTellHosts(cfg, states) ==> AllServed(cfg, states[i].table.Values, states[i].routes[cfg.namespace])
  {
    var s := states[i];
    var changed := RestFollowsPass(cfg, states, steps, i);
    var pruned := Prune(cfg, s.base.table.Values, s.base.routes);
    CreateAllSettles(cfg, s.done, pruned[cfg.namespace]);
    if NamesTellHosts(cfg, states) { RunKeepsNames(cfg, states, steps, i); }
    forall w | IsWork(w, s.table.Values) && w.service in cfg.services
      ensures WorkServed(cfg, w, s.routes[cfg.namespace], NamesTellHosts(cfg, states))
    {
      assert w in s.done && CreateOne(cfg, w, s.routes[cfg.namespace]) == s.routes[cfg.namespace];
      if NamesTellHosts(cfg, states) {
        assert s.table.Values <= RowsSeen(states);
        ServedMeansPublished(cfg, RowsSeen(states), s.routes[cfg.namespace], w);
      }
    }
  }

  lemma MissedStep(cfg: Config, s: System, step: Step, s': System)
    requires Next(cfg, s, step, s') && (s.missed ==> s.failed)
    ensures s'.missed ==> s'.failed
  {
  }

  lemma {:induction false} MissedMeansFailed(cfg: Config, states: seq<System>, steps: seq<Step>, i: nat)
    requires Run(cfg, states, steps) && i < |states|
    ensures states[i].missed ==> states[i].failed
  {
    if i > 0 {
      MissedMeansFailed(cfg, states, steps, i - 1);
      MissedStep(cfg, states[i - 1], steps[i - 1], states[i]);
    }
  }
}
