/**
 * The watch cache as a concurrent system: the cluster changes, any number of watches connect, drop and forward
 * events onto one bus, and a single consumer edits the cache or re-lists a namespace, one list at a time.
 */
module WatchMachine {
  import opened Strings
  import opened Domain
  import opened SyncPass
  import opened Gateway
  import opened RoutesCache

  const BUS_SLOTS: nat := 50

  datatype Resource = Routes | HttpRoutes | GrpcRoutes

  datatype Id = Id(namespace: string, key: string)

  function IdOf(o: Object): Id { Id(ObjectNamespace(o), ObjectKey(o)) }

  /** Which watch and which list report on a cache key. */
  function ResourceOf(key: string): Option<Resource> {
    if "Route/" <= key then Some(Routes)
    else if HTTP_ROUTE + "/" <= key then Some(HttpRoutes)
    else if GRPC_ROUTE + "/" <= key then Some(GrpcRoutes)
    else None
  }

  /** Native routes carry their own kind or none, and every object converts to at least one route. */
  predicate ObjectValid(o: Object) {
    (o.NativeObject? ==> o.route.metadata.kind in ["", "Route"]) && Convert(o) != []
  }

  /**
   * A connected watch. `announced` tells whether it has put its INIT on the bus; `queue` holds the messages of
   * the events since it connected, of which a drop may lose any rest.
   */
  datatype Connection = Down | Up(announced: bool, queue: seq<RouteUpdate>)

  datatype Watch = Watch(namespace: string, resource: Resource, connection: Connection)

  /** `from` is not read by the consumer; it records which watch sent the message. */
  datatype Message = Init(namespace: string) | Event(from: nat, update: RouteUpdate)

  datatype Consumer = Waiting | Relisting(namespace: string, todo: seq<Resource>, listed: RoutesByKey)

  /** The cluster's objects, each as the routes it converts to. */
  type Cluster = map<Id, seq<Route>>

  datatype System = System(
    resources: seq<Resource>,
    cluster: Cluster,
    watches: map<nat, Watch>,
    bus: seq<Message>,
    consumer: Consumer,
    cache: SyncPass.Routes)

  datatype Step =
    | Put(kind: UpdateType, o: Object, viaClient: bool)
    | Remove(id: Id, viaClient: bool)
    | AddWatch(w: nat, namespace: string, resource: Resource)
    | Connect(w: nat)
    | Announce(w: nat)
    | Repeat(w: nat, id: Id)
    | Forward(w: nat)
    | Drop(w: nat)
    | Consume
    | ListNext(objects: seq<Object>)
    | Swap

  // ---------- steps ----------

  predicate Watches(watch: Watch, id: Id) {
    watch.namespace == id.namespace && ResourceOf(id.key) == Some(watch.resource)
  }

  function Deliver(watch: Watch, id: Id, messages: seq<RouteUpdate>): Watch {
    if watch.connection.Up? && Watches(watch, id)
    then watch.(connection := watch.connection.(queue := watch.connection.queue + messages)) else watch
  }

  /** A change is sent to every connected watch that reports on it. */
  function DeliverAll(watches: map<nat, Watch>, id: Id, messages: seq<RouteUpdate>): map<nat, Watch> {
    map w | w in watches :: Deliver(watches[w], id, messages)
  }

  ghost predicate IsList(objects: seq<Object>, s: System, namespace: string, resource: Resource) {
    && (forall o <- objects :: IdOf(o) in s.cluster && s.cluster[IdOf(o)] == Convert(o)
                               && IdOf(o).namespace == namespace && ResourceOf(IdOf(o).key) == Some(resource))
    && (forall id | id in s.cluster && id.namespace == namespace && ResourceOf(id.key) == Some(resource) ::
          exists i :: 0 <= i < |objects| && IdOf(objects[i]) == id)
    && (forall i, j | 0 <= i < |objects| && 0 <= j < |objects| && i != j ::
         ObjectKey(objects[i]) != ObjectKey(objects[j]))
  }

  ghost predicate Next(s: System, step: Step, s': System) {
    match step
    case Put(kind, o, viaClient) =>
      kind in {CreatedType, AddedType, ModifiedType} && ObjectValid(o) && (viaClient ==> o.NativeObject?) &&
      s' == s.(cluster := s.cluster[IdOf(o) := Convert(o)],
               watches := DeliverAll(s.watches, IdOf(o), Messages(kind, Convert(o))),
               cache := if viaClient then Apply(s.cache, RouteUpdate(kind, o.route)) else s.cache)
    case Remove(id, viaClient) =>
      id in s.cluster && s.cluster[id] != [] && (viaClient ==> ResourceOf(id.key) == Some(Routes)) &&
      s' == s.(cluster := s.cluster - {id},
               watches := DeliverAll(s.watches, id, Messages(DeletedType, s.cluster[id])),
               cache := if viaClient then Apply(s.cache, RouteUpdate(DeletedType, s.cluster[id][0])) else s.cache)
    case AddWatch(w, namespace, resource) =>
      w !in s.watches && resource in s.resources
          && s' == s.(watches := s.watches[w := Watch(namespace, resource, Down)])
    case Connect(w) =>
      w in s.watches && s.watches[w].connection == Down && s' == SetConnection(s, w, Up(false, []))
    case Announce(w) =>
      w in s.watches && |s.bus| < BUS_SLOTS && s.watches[w].connection.Up? && !s.watches[w].connection.announced &&
      s' == SetConnection(s, w,
          s.watches[w].connection.(announced := true)).(bus := s.bus + [Init(s.watches[w].namespace)])
    case Repeat(w, id) =>
      w in s.watches && s.watches[w].connection.Up? && id in s.cluster && Watches(s.watches[w], id) &&
      s' == s.(watches := s.watches[w := Deliver(s.watches[w], id, Messages(AddedType, s.cluster[id]))])
    case Forward(w) =>
      w in s.watches && |s.bus| < BUS_SLOTS && s.watches[w].connection.Up? && s.watches[w].connection.announced &&
      (var queue := s.watches[w].connection.queue;
       queue != [] && s' == SetConnection(s, w, Up(true, queue[1..])).(bus := s.bus + [Event(w, queue[0])]))
    case Drop(w) =>
      w in s.watches && s.watches[w].connection.Up? && s' == SetConnection(s, w, Down)
    case Consume =>
      s.consumer == Waiting && s.bus != [] &&
      (match s.bus[0]
       case Init(namespace) => s' == s.(bus := s.bus[1..], consumer := Relisting(namespace, s.resources, map[]))
       case Event(_, update) => s' == s.(bus := s.bus[1..], cache := Apply(s.cache, update)))
    case ListNext(objects) =>
      s.consumer.Relisting? && s.consumer.todo != [] && IsList(objects, s, s.consumer.namespace, s.consumer.todo[0]) &&
      s' == s.(consumer := s.consumer.(todo := s.consumer.todo[1..],
          listed := s.consumer.listed + ByKey(ConvertAll(objects))))
    case Swap =>
      s.consumer.Relisting? && s.consumer.todo == [] &&
      s' == s.(consumer := Waiting, cache := s.cache[s.consumer.namespace := s.consumer.listed])
  }

  function SetConnection(s: System, w: nat, connection: Connection): System
    requires w in s.watches
  {
    s.(watches := s.watches[w := s.watches[w].(connection := connection)])
  }

  /** Any cluster and any cached namespaces; no watch, an empty bus. Native routes are always listed and watched. */
  ghost predicate InitState(s: System) {
    && ClusterValid(s.cluster)
    && s.resources in [[Routes], [Routes, HttpRoutes, GrpcRoutes]]
    && s.watches == map[] && s.bus == [] && s.consumer == Waiting
    && CacheKeysWatched(s)
  }

  ghost predicate ClusterValid(cluster: Cluster) {
    forall id | id in cluster :: cluster[id] != [] && AllAbout(cluster[id], id)
  }

  predicate AllAbout(routes: seq<Route>, id: Id) {
    forall route <- routes :: Id(route.metadata.namespace, route.CacheKey()) == id
  }

  predicate KeyWatched(resources: seq<Resource>, key: string) {
    ResourceOf(key).Some? && ResourceOf(key).value in resources
  }

  ghost predicate CacheKeysWatched(s: System) {
    forall namespace, key | namespace in s.cache && key in s.cache[namespace] :: KeyWatched(s.resources, key)
  }

  ghost predicate Run(states: seq<System>, steps: seq<Step>) {
    && |states| == |steps| + 1 && InitState(states[0])
    && forall i | 0 <= i < |steps| :: Next(states[i], steps[i], states[i + 1])
  }

  // ---------- what the cluster shows, what a map holds, what messages leave ----------

  function Show(cluster: Cluster, id: Id): Option<Route> {
    if id in cluster && cluster[id] != [] then Some(cluster[id][|cluster[id]| - 1]) else None
  }

  function Lookup(routes: RoutesByKey, key: string): Option<Route> {
    if key in routes then Some(routes[key]) else None
  }

  predicate Concerns(update: RouteUpdate, id: Id) {
    update.route.metadata.namespace == id.namespace && update.route.CacheKey() == id.key
  }

  function Outcome(update: RouteUpdate): Option<Route> {
    if Stores(update.kind) then Some(update.route) else None
  }

  /** What the last of `updates` about `id` leaves under it; nothing when none is about it. */
  function Final(updates: seq<RouteUpdate>, id: Id): Option<Option<Route>> {
    if updates == [] then None
    else if Concerns(updates[|updates| - 1], id) then Some(Outcome(updates[|updates| - 1]))
    else Final(updates[..|updates| - 1], id)
  }

  lemma {:induction false} FinalAppend(first: seq<RouteUpdate>, second: seq<RouteUpdate>, id: Id)
    ensures Final(first + second, id) == if Final(second, id).Some? then Final(second, id) else Final(first, id)
  {
    if second == [] {
      assert first + second == first;
    } else {
      assert (first + second)[..|first + second| - 1] == first + second[..|second| - 1];
      FinalAppend(first, second[..|second| - 1], id);
    }
  }

  /** The messages of one change leave exactly what the cluster then shows. */
  lemma {:induction false} FinalOfMessages(kind: UpdateType, routes: seq<Route>, own: Id, id: Id)
    requires AllAbout(routes, own)
    ensures Final(Messages(kind, routes), id) ==
              if id != own || routes == [] then None else Some(Outcome(RouteUpdate(kind, routes[|routes| - 1])))
  {
    if routes != [] {
      var all := Messages(kind, routes);
      assert all[..|all| - 1] == Messages(kind, routes[..|routes| - 1]);
      assert routes[|routes| - 1] in routes;
      FinalOfMessages(kind, routes[..|routes| - 1], own, id);
    }
  }

  /** The updates of watch `w` on the bus behind the last INIT of `namespace`. */
  function Tail(bus: seq<Message>, namespace: string, w: nat): seq<RouteUpdate> {
    if bus == [] || bus[|bus| - 1] == Init(namespace) then []
    else
      var last := bus[|bus| - 1];
      Tail(bus[..|bus| - 1], namespace, w) + (if last.Event? && last.from == w then [last.update] else [])
  }

  lemma {:induction false} TailOfPop(bus: seq<Message>, namespace: string, w: nat)
    requires bus != []
    ensures var head, rest := bus[0], bus[1..];
            Tail(bus, namespace, w) ==
              if Init(namespace) !in rest && head.Event? && head.from == w then [head.update] + Tail(rest, namespace, w)
              else Tail(rest, namespace, w)
  {
    var rest := bus[1..];
    if rest != [] && rest[|rest| - 1] != Init(namespace) {
      TailOfPop(bus[..|bus| - 1], namespace, w);
      assert bus[..|bus| - 1][1..] == rest[..|rest| - 1];
      assert rest == rest[..|rest| - 1] + [rest[|rest| - 1]];
    } else if rest == [] {
      assert bus[..0] == [];
    } else {
      assert Init(namespace) in rest;
    }
  }

  /** Everything `watch`, which is number `w`, has still to say to the cache. */
  function Said(bus: seq<Message>, watch: Watch, w: nat): seq<RouteUpdate>
    requires watch.connection.Up?
  {
    (if watch.connection.announced then Tail(bus, watch.namespace, w) else []) + watch.connection.queue
  }

  function Pending(s: System, w: nat): seq<RouteUpdate>
    requires w in s.watches && s.watches[w].connection.Up?
  {
    Said(s.bus, s.watches[w], w)
  }

  // ---------- the invariant ----------

  /** The last thing a connected watch has still to say about an object is what the cluster shows. */
  ghost predicate LastWordIsTrue(s: System, w: nat, id: Id) {
    w in s.watches && s.watches[w].connection.Up? && Watches(s.watches[w], id) && Final(Pending(s, w), id).Some? ==>
      Final(Pending(s, w), id).value == Show(s.cluster, id)
  }

  /** All watches that report on `id` are announced and have nothing more to say about it. */
  ghost predicate AllSaid(s: System, id: Id) {
    && (exists w :: w in s.watches && Watches(s.watches[w], id))
    && (forall w | w in s.watches && Watches(s.watches[w], id) ::
          s.watches[w].connection.Up? && s.watches[w].connection.announced && Final(Pending(s, w), id).None?)
  }

  /** Once all is said about `id` and no re-list is waiting, the cache shows it, or the running re-list will. */
  ghost predicate SaidMeansShown(s: System, id: Id) {
    AllSaid(s, id) && Init(id.namespace) !in s.bus ==>
      if s.consumer.Relisting? && s.consumer.namespace == id.namespace
      then ResourceOf(id.key).value in s.consumer.todo || Lookup(s.consumer.listed, id.key) == Show(s.cluster, id)
      else id.namespace in s.cache && Lookup(s.cache[id.namespace], id.key) == Show(s.cluster, id)
  }

  /** An announced watch's namespace is in the cache unless its re-list is still to come. */
  ghost predicate AnnouncedIsCached(s: System, w: nat) {
    w in s.watches && s.watches[w].connection.Up? && s.watches[w].connection.announced ==>
      var namespace := s.watches[w].namespace;
      Init(namespace) in s.bus || (s.consumer.Relisting? && s.consumer.namespace == namespace) || namespace in s.cache
  }

  predicate Belongs(watch: Watch, update: RouteUpdate) {
    && Watches(watch, Id(update.route.metadata.namespace, update.route.CacheKey()))
    && (Stores(update.kind) || update.kind.DeletedType?)
  }

  /** Bookkeeping: objects are filed under their id, and messages and cached keys belong to watched resources. */
  ghost predicate Tidy(s: System) {
    && ClusterValid(s.cluster) && CacheKeysWatched(s) && QueuesTidy(s) && BusTidy(s)
    && s.resources in [[Routes], [Routes, HttpRoutes, GrpcRoutes]]
    && (s.consumer.Relisting? ==> RelistTidy(s.resources, s.consumer.todo, s.consumer.listed))
  }

  ghost predicate QueuesTidy(s: System) {
    forall w | w in s.watches ::
      && s.watches[w].resource in s.resources
      && (s.watches[w].connection.Up? ==>
           forall update <- s.watches[w].connection.queue :: Belongs(s.watches[w], update))
  }

  ghost predicate BusTidy(s: System) {
    forall m <- s.bus :: m.Event? ==> m.from in s.watches && Belongs(s.watches[m.from], m.update)
  }

  ghost predicate RelistTidy(resources: seq<Resource>, todo: seq<Resource>, listed: RoutesByKey) {
    && (forall r <- todo :: r in resources)
    && (forall i, j | 0 <= i < j < |todo| :: todo[i] != todo[j])
    && (forall key | key in listed :: KeyWatched(resources, key) && ResourceOf(key).value !in todo)
  }

  // ---------- facts about single operations ----------

  lemma ApplyShows(cache: SyncPass.Routes, update: RouteUpdate, id: Id)
    requires Stores(update.kind) || update.kind.DeletedType?
    requires id.namespace in cache
    ensures id.namespace in Apply(cache, update)
    ensures Lookup(Apply(cache, update)[id.namespace], id.key) ==
              if Concerns(update, id) then Outcome(update) else Lookup(cache[id.namespace], id.key)
  {
  }

  lemma ObjectResource(o: Object)
    requires ObjectValid(o)
    ensures ResourceOf(ObjectKey(o)) ==
              Some(if o.NativeObject? then Routes else if o.HttpObject? then HttpRoutes else GrpcRoutes)
  {
    var key := ObjectKey(o);
    assert HTTP_ROUTE[0] == 'H' && GRPC_ROUTE[0] == 'G' && "Route/"[0] == 'R';
    if o.NativeObject? {
      assert "Route/" <= key;
    } else if o.HttpObject? {
      assert key[0] == 'H' && HTTP_ROUTE + "/" <= key;
    } else {
      assert key[0] == 'G' && GRPC_ROUTE + "/" <= key;
    }
  }

  lemma ListShowsPresent(s: System, objects: seq<Object>, namespace: string, resource: Resource, id: Id)
    requires ClusterValid(s.cluster) && IsList(objects, s, namespace, resource)
    requires id in s.cluster && id.namespace == namespace && ResourceOf(id.key) == Some(resource)
    ensures Lookup(ByKey(ConvertAll(objects)), id.key) == Show(s.cluster, id)
  {
    var i: nat :| i < |objects| && IdOf(objects[i]) == id;
    assert objects[i] in objects;
    ListEntry(objects, i);
  }

  lemma ListShowsAbsent(s: System, objects: seq<Object>, namespace: string, resource: Resource, id: Id)
    requires IsList(objects, s, namespace, resource)
    requires id.namespace == namespace && (id !in s.cluster || ResourceOf(id.key) != Some(resource))
    ensures id.key !in ByKey(ConvertAll(objects))
  {
    forall o | o in objects ensures ObjectKey(o) != id.key {
      assert IdOf(o) in s.cluster && IdOf(o).namespace == namespace && ResourceOf(IdOf(o).key) == Some(resource);
    }
    ListAbsent(objects, id.key);
  }

  /** The list of one resource shows for each of its ids what the cluster shows, and nothing for other resources. */
  lemma ListShows(s: System, objects: seq<Object>, namespace: string, resource: Resource, id: Id)
    requires ClusterValid(s.cluster) && IsList(objects, s, namespace, resource) && id.namespace == namespace
    ensures Lookup(ByKey(ConvertAll(objects)), id.key) ==
              if ResourceOf(id.key) == Some(resource) then Show(s.cluster, id) else None
  {
    if ResourceOf(id.key) == Some(resource) && id in s.cluster {
      ListShowsPresent(s, objects, namespace, resource, id);
    } else {
      ListShowsAbsent(s, objects, namespace, resource, id);
    }
  }

  // ---------- every step keeps the invariant ----------

  lemma TailOfPush(bus: seq<Message>, m: Message, namespace: string, w: nat)
    ensures Tail(bus + [m], namespace, w) ==
              if m == Init(namespace) then []
              else Tail(bus, namespace, w) + (if m.Event? && m.from == w then [m.update] else [])
  {
    assert (bus + [m])[..|bus|] == bus;
  }

  /** How one step can change the last word of a watch that stays connected, from `before` to `after`. */
  ghost predicate WordStep(s: System, step: Step, s': System, w: nat, id: Id, before: Option<Option<Route>>,
                           after: Option<Option<Route>>) {
    match step
    case Put(_, o, _) => after == if id == IdOf(o) then Some(Show(s'.cluster, id)) else before
    case Remove(gone, _) => after == if id == gone then Some(None) else before
    case Repeat(w0, again) => after == if id == again && w == w0 then Some(Show(s.cluster, id)) else before
    case Announce(_) => after.None? || after == before
    case Consume => after.None? || after == before
    case _ => after == before
  }

  ghost predicate StaysUp(s: System, s': System, w: nat, id: Id) {
    && w in s.watches && s.watches[w].connection.Up? && w in s'.watches && s'.watches[w].connection.Up?
    && Watches(s.watches[w], id)
  }

  lemma PendingStep(s: System, step: Step, s': System, w: nat, id: Id)
    requires Tidy(s) && Next(s, step, s') && StaysUp(s, s', w, id)
    ensures Watches(s'.watches[w], id)
    ensures WordStep(s, step, s', w, id, Final(Pending(s, w), id), Final(Pending(s', w), id))
  {
    if step.Put? { PendingPut(s, step, s', w, id); }
    else if step.Remove? { PendingRemove(s, step, s', w, id); }
    else if step.Repeat? { PendingRepeat(s, step, s', w, id); }
    else { PendingMove(s, step, s', w, id); }
  }

  lemma PendingPut(s: System, step: Step, s': System, w: nat, id: Id)
    requires Next(s, step, s') && StaysUp(s, s', w, id) && step.Put?
    ensures WordStep(s, step, s', w, id, Final(Pending(s, w), id), Final(Pending(s', w), id))
  {
    var messages := Messages(step.kind, Convert(step.o));
    ConversionsShareKey(step.o);
    assert s'.watches[w] == Deliver(s.watches[w], IdOf(step.o), messages) && s'.bus == s.bus;
    SaidDeliver(s.bus, s.watches[w], w, IdOf(step.o), step.kind, Convert(step.o), id);
  }

  lemma PendingRemove(s: System, step: Step, s': System, w: nat, id: Id)
    requires ClusterValid(s.cluster) && Next(s, step, s') && StaysUp(s, s', w, id) && step.Remove?
    ensures WordStep(s, step, s', w, id, Final(Pending(s, w), id), Final(Pending(s', w), id))
  {
    assert s'.watches[w] == Deliver(s.watches[w], step.id, Messages(DeletedType, s.cluster[step.id]))
        && s'.bus == s.bus;
    SaidDeliver(s.bus, s.watches[w], w, step.id, DeletedType, s.cluster[step.id], id);
  }

  lemma PendingRepeat(s: System, step: Step, s': System, w: nat, id: Id)
    requires ClusterValid(s.cluster) && Next(s, step, s') && StaysUp(s, s', w, id) && step.Repeat?
    ensures WordStep(s, step, s', w, id, Final(Pending(s, w), id), Final(Pending(s', w), id))
  {
    SaidDeliver(s.bus, s.watches[w], w, step.id, AddedType, s.cluster[step.id], id);
  }

  lemma PendingMove(s: System, step: Step, s': System, w: nat, id: Id)
    requires Next(s, step, s') && StaysUp(s, s', w, id)
    requires !step.Put? && !step.Remove? && !step.Repeat?
    ensures WordStep(s, step, s', w, id, Final(Pending(s, w), id), Final(Pending(s', w), id))
  {
    var watch := s.watches[w];
    match step {
      case Announce(w0) =>
        if w == w0 { SaidAnnounce(s.bus, watch, w); } else { SaidInit(s.bus, s.watches[w0].namespace, watch, w, id); }
      case Forward(w0) =>
        if w == w0 { SaidForward(s.bus, watch, w); }
        else {
          TailOfPush(s.bus, Event(w0, s.watches[w0].connection.queue[0]), watch.namespace, w);
          assert Pending(s', w) == Pending(s, w);
        }
      case Consume =>
        SaidPop(s.bus, watch, w, id);
      case _ =>
    }
  }

  lemma SaidDeliver(bus: seq<Message>, watch: Watch, w: nat, changed: Id, kind: UpdateType, routes: seq<Route>, id: Id)
    requires watch.connection.Up? && Watches(watch, id)
    requires routes != [] && AllAbout(routes, changed)
    ensures Final(Said(bus, Deliver(watch, changed, Messages(kind, routes)), w), id) ==
              if id == changed then Some(Outcome(RouteUpdate(kind, routes[|routes| - 1])))
                  else Final(Said(bus, watch, w), id)
  {
    var messages := Messages(kind, routes);
    FinalOfMessages(kind, routes, changed, id);
    if Watches(watch, changed) {
      assert Said(bus, Deliver(watch, changed, messages), w) == Said(bus, watch, w) + messages;
      FinalAppend(Said(bus, watch, w), messages, id);
    }
  }

  lemma SaidAnnounce(bus: seq<Message>, watch: Watch, w: nat)
    requires watch.connection.Up? && !watch.connection.announced
    ensures Said(bus + [Init(watch.namespace)], watch.(connection := watch.connection.(announced := true)), w) ==
              Said(bus, watch, w)
  {
    TailOfPush(bus, Init(watch.namespace), watch.namespace, w);
  }

  lemma SaidInit(bus: seq<Message>, namespace: string, watch: Watch, w: nat, id: Id)
    requires watch.connection.Up?
    ensures var before, after := Final(Said(bus, watch, w), id), Final(Said(bus + [Init(namespace)], watch, w), id);
            after == before || (namespace == watch.namespace && after.None?)
  {
    TailOfPush(bus, Init(namespace), watch.namespace, w);
    var queue := watch.connection.queue;
    FinalAppend(Tail(bus, watch.namespace, w), queue, id);
    if watch.connection.announced && namespace == watch.namespace {
      assert Said(bus + [Init(namespace)], watch, w) == queue;
    } else {
      assert Said(bus + [Init(namespace)], watch, w) == Said(bus, watch, w);
    }
  }

  lemma SaidForward(bus: seq<Message>, watch: Watch, w: nat)
    requires watch.connection.Up? && watch.connection.announced && watch.connection.queue != []
    ensures var queue := watch.connection.queue;
            Said(bus + [Event(w, queue[0])], watch.(connection := Up(true, queue[1..])), w) == Said(bus, watch, w)
  {
    var queue := watch.connection.queue;
    TailOfPush(bus, Event(w, queue[0]), watch.namespace, w);
    assert queue == [queue[0]] + queue[1..];
  }

  lemma SaidPop(bus: seq<Message>, watch: Watch, w: nat, id: Id)
    requires bus != [] && watch.connection.Up? && watch.namespace == id.namespace
    ensures var before, after := Final(Said(bus, watch, w), id), Final(Said(bus[1..], watch, w), id);
            && (after.None? || after == before)
            && (bus[0].Event? && !Concerns(bus[0].update, id) ==> after == before)
            && (bus[0].Init? ==> after == before)
            && ((bus[0].Event? && bus[0].from == w && Concerns(bus[0].update, id) && watch.connection.announced
                 && Init(id.namespace) !in bus[1..] && after.None?) ==> before == Some(Outcome(bus[0].update)))
  {
    var queue, rest := watch.connection.queue, Tail(bus[1..], watch.namespace, w);
    TailOfPop(bus, watch.namespace, w);
    FinalAppend(Tail(bus, watch.namespace, w), queue, id);
    FinalAppend(rest, queue, id);
    if bus[0].Event? { FinalAppend([bus[0].update], rest, id); }
  }

  lemma ShowStep(s: System, step: Step, s': System, id: Id)
    requires Next(s, step, s') && !Changes(step, id)
    ensures Show(s'.cluster, id) == Show(s.cluster, id)
  {
  }

  lemma WordKept(s: System, step: Step, s': System, w: nat, id: Id)
    requires Tidy(s) && Next(s, step, s') && LastWordIsTrue(s, w, id)
    ensures LastWordIsTrue(s', w, id)
  {
    if w in s'.watches && s'.watches[w].connection.Up? && Watches(s'.watches[w], id) {
      if w in s.watches && s.watches[w].connection.Up? {
        PendingStep(s, step, s', w, id);
        if !Changes(step, id) { ShowStep(s, step, s', id); }
      } else {
        assert Pending(s', w) == [];
      }
    }
  }

  lemma CachedKept(s: System, step: Step, s': System, w: nat)
    requires Tidy(s) && Next(s, step, s') && AnnouncedIsCached(s, w)
    ensures AnnouncedIsCached(s', w)
  {
    if step.Consume? && w in s.watches {
      var namespace := s.watches[w].namespace;
      assert s.bus == [s.bus[0]] + s.bus[1..];
      assert Init(namespace) in s.bus ==> s.bus[0] == Init(namespace) || Init(namespace) in s.bus[1..];
    }
  }

  /** Watches are never forgotten; a new one is down, a reconnected one unannounced, and only Announce announces. */
  ghost predicate WatchesEvolve(s: System, step: Step, s': System) {
    && (forall w | w in s.watches ::
          w in s'.watches && s'.watches[w].namespace == s.watches[w].namespace
              && s'.watches[w].resource == s.watches[w].resource)
    && (forall w | w in s'.watches && s'.watches[w].connection.Up? && s'.watches[w].connection.announced ::
          w in s.watches && s.watches[w].connection.Up?
          && (s.watches[w].connection.announced || Init(s.watches[w].namespace) in s'.bus))
    && (forall w | w in s'.watches && w !in s.watches :: s'.watches[w].connection == Down)
  }

  lemma WatchesEvolved(s: System, step: Step, s': System)
    requires Next(s, step, s')
    ensures WatchesEvolve(s, step, s')
  {
    if step.Announce? { assert s'.bus[|s.bus|] in s'.bus; }
  }

  /** When all is said about `id` after a step, every watch on it was there and connected before the step. */
  lemma WatchesBefore(s: System, step: Step, s': System, id: Id)
    requires WatchesEvolve(s, step, s') && AllSaid(s', id)
    ensures exists w :: w in s.watches && Watches(s.watches[w], id)
    ensures forall w | w in s.watches && Watches(s.watches[w], id) :: StaysUp(s, s', w, id)
    ensures Init(id.namespace) !in s'.bus ==>
              forall w | w in s.watches && Watches(s.watches[w], id) ::
                  s.watches[w].connection.Up? && s.watches[w].connection.announced
  {
    var w0 :| w0 in s'.watches && Watches(s'.watches[w0], id);
    assert w0 in s.watches && Watches(s.watches[w0], id);
    forall w | w in s.watches && Watches(s.watches[w], id)
      ensures StaysUp(s, s', w, id) && (Init(id.namespace) !in s'.bus ==> s.watches[w].connection.announced)
    {
      assert w in s'.watches && Watches(s'.watches[w], id);
    }
  }

  predicate Changes(step: Step, id: Id) {
    (step.Put? && IdOf(step.o) == id) || (step.Remove? && step.id == id)
  }

  predicate SaysAbout(s: System, step: Step, id: Id) {
    || Changes(step, id)
    || (step.Consume? && s.bus != []
         && (s.bus[0] == Init(id.namespace) || (s.bus[0].Event? && Concerns(s.bus[0].update, id))))
  }

  /** When all is said after a step, all was said before it, unless the step consumed the last word or an INIT. */
  lemma SaidBefore(s: System, step: Step, s': System, id: Id)
    requires Tidy(s) && Next(s, step, s') && AllSaid(s', id) && Init(id.namespace) !in s'.bus
    ensures !Changes(step, id)
    ensures !SaysAbout(s, step, id) ==> AllSaid(s, id) && Init(id.namespace) !in s.bus
  {
    WatchesEvolved(s, step, s');
    WatchesBefore(s, step, s', id);
    var w0 :| w0 in s.watches && Watches(s.watches[w0], id);
    assert StaysUp(s, s', w0, id) && Final(Pending(s', w0), id).None?;
    if Changes(step, id) { PendingStep(s, step, s', w0, id); }
    if !SaysAbout(s, step, id) {
      forall w | w in s.watches && Watches(s.watches[w], id) ensures Final(Pending(s, w), id).None? {
        assert StaysUp(s, s', w, id) && Final(Pending(s', w), id).None?;
        SaidBeforeByWatch(s, step, s', w, id);
      }
      BusBefore(s, step, s', id);
    }
  }

  lemma BusBefore(s: System, step: Step, s': System, id: Id)
    requires Next(s, step, s') && !SaysAbout(s, step, id) && Init(id.namespace) !in s'.bus
    ensures Init(id.namespace) !in s.bus
  {
    if step.Consume? { assert s.bus == [s.bus[0]] + s.bus[1..]; }
  }

  lemma SaidBeforeByWatch(s: System, step: Step, s': System, w: nat, id: Id)
    requires Tidy(s) && Next(s, step, s') && StaysUp(s, s', w, id)
    requires !SaysAbout(s, step, id) && Init(id.namespace) !in s'.bus && Final(Pending(s', w), id).None?
    ensures Final(Pending(s, w), id).None?
  {
    if step.Consume? {
      SaidPop(s.bus, s.watches[w], w, id);
    } else if step.Announce? {
      assert s'.bus[|s.bus|] in s'.bus;
      assert s.watches[step.w].namespace != id.namespace;
      SaidInit(s.bus, s.watches[step.w].namespace, s.watches[w], w, id);
    } else {
      PendingStep(s, step, s', w, id);
    }
  }

  // ---------- all said means shown ----------

  lemma ShownKept(s: System, step: Step, s': System, id: Id)
    requires Tidy(s) && Next(s, step, s')
    requires forall w :: LastWordIsTrue(s, w, id) && AnnouncedIsCached(s, w)
    requires SaidMeansShown(s, id)
    ensures SaidMeansShown(s', id)
  {
    if AllSaid(s', id) && Init(id.namespace) !in s'.bus {
      if step.Consume? {
        ConsumeShows(s, s', id);
      } else {
        SaidBefore(s, step, s', id);
        ShowStep(s, step, s', id);
        if step.ListNext? { ListNextShows(s, step.objects, s', id); }
        else { OtherShows(s, step, s', id); }
      }
    }
  }

  lemma OtherShows(s: System, step: Step, s': System, id: Id)
    requires Tidy(s) && Next(s, step, s') && !step.Consume? && !step.ListNext? && !Changes(step, id)
    requires SaidMeansShown(s, id) && AllSaid(s, id) && Init(id.namespace) !in s.bus
    ensures SaidMeansShown(s', id)
  {
    if step.Put? && step.viaClient {
      ConversionsShareKey(step.o);
      ClientShows(s, RouteUpdate(step.kind, step.o.route), id);
    }
    if step.Remove? && step.viaClient {
      assert s.cluster[step.id][0] in s.cluster[step.id];
      ClientShows(s, RouteUpdate(DeletedType, s.cluster[step.id][0]), id);
    }
    ShowStep(s, step, s', id);
  }

  lemma ClientShows(s: System, update: RouteUpdate, id: Id)
    requires Stores(update.kind) || update.kind.DeletedType?
    ensures id.namespace in s.cache ==> id.namespace in Apply(s.cache, update)
    ensures id.namespace in s.cache && !Concerns(update, id) ==>
              Lookup(Apply(s.cache, update)[id.namespace], id.key) == Lookup(s.cache[id.namespace], id.key)
  {
  }

  /**
   * The last message about `id` to be consumed says what the cluster shows, and falls into an initialised namespace.
   */
  lemma LastWordConsumed(s: System, s': System, id: Id)
    requires BusTidy(s) && s.bus != [] && s.consumer == Waiting && s'.bus == s.bus[1..] && s'.watches == s.watches
    requires forall w :: LastWordIsTrue(s, w, id) && AnnouncedIsCached(s, w)
    requires AllSaid(s', id) && Init(id.namespace) !in s'.bus
    requires s.bus[0].Event? && Concerns(s.bus[0].update, id)
    ensures Outcome(s.bus[0].update) == Show(s.cluster, id) && id.namespace in s.cache
  {
    var head := s.bus[0];
    var f := head.from;
    assert head in s.bus && Belongs(s.watches[f], head.update) && Watches(s'.watches[f], id);
    assert Final(Pending(s', f), id).None?;
    SaidPop(s.bus, s.watches[f], f, id);
    assert LastWordIsTrue(s, f, id) && AnnouncedIsCached(s, f);
    assert s.bus == [head] + s.bus[1..];
  }

  lemma ConsumeInitShows(s: System, s': System, id: Id)
    requires QueuesTidy(s) && Next(s, Consume, s') && s.bus[0] == Init(id.namespace) && AllSaid(s', id)
    ensures SaidMeansShown(s', id)
  {
    var w0 :| w0 in s'.watches && Watches(s'.watches[w0], id);
    assert s.watches[w0].resource in s.resources;
  }

  lemma ConsumeShows(s: System, s': System, id: Id)
    requires Tidy(s) && Next(s, Consume, s')
    requires forall w :: LastWordIsTrue(s, w, id) && AnnouncedIsCached(s, w)
    requires SaidMeansShown(s, id)
    requires AllSaid(s', id) && Init(id.namespace) !in s'.bus
    ensures SaidMeansShown(s', id)
  {
    var head := s.bus[0];
    if head == Init(id.namespace) {
      ConsumeInitShows(s, s', id);
    } else if head.Event? {
      assert head in s.bus && Belongs(s.watches[head.from], head.update);
      if Concerns(head.update, id) { LastWordConsumed(s, s', id); } else { SaidBefore(s, Consume, s', id); }
      ApplyShows(s.cache, head.update, id);
    } else {
      SaidBefore(s, Consume, s', id);
    }
  }

  lemma ListNextShows(s: System, objects: seq<Object>, s': System, id: Id)
    requires Tidy(s) && Next(s, ListNext(objects), s')
    requires SaidMeansShown(s, id) && AllSaid(s, id) && Init(id.namespace) !in s.bus
    requires ResourceOf(id.key).Some?
    ensures SaidMeansShown(s', id)
  {
    if s.consumer.namespace == id.namespace {
      ListShows(s, objects, id.namespace, s.consumer.todo[0], id);
      var resource := ResourceOf(id.key).value;
      assert resource in s.consumer.todo ==> resource == s.consumer.todo[0] || resource in s.consumer.todo[1..];
    }
  }

  // ---------- bookkeeping is kept ----------

  lemma TidyKept(s: System, step: Step, s': System)
    requires Tidy(s) && Next(s, step, s')
    ensures Tidy(s')
  {
    QueuesTidyKept(s, step, s');
    BusTidyKept(s, step, s');
    ClusterKept(s, step, s');
    CacheKeysKept(s, step, s');
    if s'.consumer.Relisting? { RelistKept(s, step, s'); }
  }

  lemma QueuesTidyKept(s: System, step: Step, s': System)
    requires Tidy(s) && Next(s, step, s')
    ensures QueuesTidy(s')
  {
    if step.Put? || step.Remove? || step.Repeat? {
      var id := if step.Put? then IdOf(step.o) else step.id;
      var kind := if step.Put? then step.kind else if step.Remove? then DeletedType else AddedType;
      var routes := if step.Put? then Convert(step.o) else s.cluster[step.id];
      if step.Put? { ConversionsShareKey(step.o); }
      DeliveriesBelong(s, id, kind, routes);
      forall w | w in s'.watches
        ensures s'.watches[w].resource in s.resources
        ensures s'.watches[w].connection.Up? ==>
                  forall update <- s'.watches[w].connection.queue :: Belongs(s'.watches[w], update)
      {
        assert w in s.watches && s.watches[w].resource in s.resources;
        assert s'.watches[w] == Deliver(s.watches[w], id, Messages(kind, routes)) || s'.watches[w] == s.watches[w];
      }
    } else {
      forall w | w in s'.watches
        ensures s'.watches[w].resource in s'.resources
        ensures s'.watches[w].connection.Up? ==>
                  forall update <- s'.watches[w].connection.queue :: Belongs(s'.watches[w], update)
      {
        if w in s.watches && s.watches[w].connection.Up? && s'.watches[w].connection.Up? {
          var queue, queue' := s.watches[w].connection.queue, s'.watches[w].connection.queue;
          assert queue' == queue || (queue != [] && queue' == queue[1..]);
          assert forall update <- queue' :: update in queue;
        }
      }
    }
  }

  lemma DeliveriesBelong(s: System, id: Id, kind: UpdateType, routes: seq<Route>)
    requires QueuesTidy(s) && AllAbout(routes, id) && (Stores(kind) || kind.DeletedType?)
    ensures forall w | w in s.watches && s.watches[w].connection.Up? ::
              forall update <- Deliver(s.watches[w], id, Messages(kind, routes)).connection.queue ::
                  Belongs(s.watches[w], update)
  {
    forall w, update | w in s.watches && s.watches[w].connection.Up? && Watches(s.watches[w], id)
        && update in Messages(kind, routes)
      ensures Belongs(s.watches[w], update)
    {
      assert update.route in routes;
    }
  }

  lemma BusTidyKept(s: System, step: Step, s': System)
    requires Tidy(s) && Next(s, step, s')
    ensures BusTidy(s')
  {
    WatchesEvolved(s, step, s');
    forall m | m in s'.bus && m.Event? ensures m.from in s'.watches && Belongs(s'.watches[m.from], m.update) {
      if m in s.bus {
        assert m.from in s.watches && Belongs(s.watches[m.from], m.update);
      } else {
        var queue := s.watches[step.w].connection.queue;
        assert queue[0] in queue;
      }
    }
  }

  lemma ListKeys(s: System, objects: seq<Object>, namespace: string, resource: Resource)
    requires ClusterValid(s.cluster) && IsList(objects, s, namespace, resource)
    ensures forall key | key in ByKey(ConvertAll(objects)) :: ResourceOf(key) == Some(resource)
  {
    forall key | key in ByKey(ConvertAll(objects)) ensures ResourceOf(key) == Some(resource) {
      ListShows(s, objects, namespace, resource, Id(namespace, key));
    }
  }

  lemma ClusterKept(s: System, step: Step, s': System)
    requires ClusterValid(s.cluster) && Next(s, step, s')
    ensures ClusterValid(s'.cluster)
  {
    if step.Put? { ConversionsShareKey(step.o); }
  }

  lemma RelistKept(s: System, step: Step, s': System)
    requires Tidy(s) && Next(s, step, s') && s'.consumer.Relisting?
    ensures RelistTidy(s.resources, s'.consumer.todo, s'.consumer.listed)
  {
    if step.ListNext? { ListKeys(s, step.objects, s.consumer.namespace, s.consumer.todo[0]); }
  }

  lemma CacheKeysKept(s: System, step: Step, s': System)
    requires Tidy(s) && Next(s, step, s')
    ensures CacheKeysWatched(s')
  {
    match step {
      case Put(kind, o, viaClient) =>
        ConversionsShareKey(o);
        ObjectResource(o);
        if viaClient { ApplyKeepsWatched(s, RouteUpdate(kind, o.route)); }
      case Remove(id, viaClient) =>
        if viaClient { ApplyKeepsWatched(s, RouteUpdate(DeletedType, s.cluster[id][0])); }
      case Consume =>
        assert s.bus[0] in s.bus;
        if s.bus[0].Event? { ApplyKeepsWatched(s, s.bus[0].update); }
      case _ =>
    }
  }

  lemma ApplyKeepsWatched(s: System, update: RouteUpdate)
    requires CacheKeysWatched(s)
    requires update.kind.DeletedType? || KeyWatched(s.resources, update.route.CacheKey())
    ensures CacheKeysWatched(s.(cache := Apply(s.cache, update)))
  {
  }

  // ---------- whole runs ----------

  ghost predicate Inv(s: System) {
    && Tidy(s)
    && (forall w, id :: LastWordIsTrue(s, w, id))
    && (forall w :: AnnouncedIsCached(s, w))
    && (forall id :: SaidMeansShown(s, id))
  }

  lemma InvKept(s: System, step: Step, s': System)
    requires Inv(s) && Next(s, step, s')
    ensures Inv(s')
  {
    TidyKept(s, step, s');
    forall w, id ensures LastWordIsTrue(s', w, id) { WordKept(s, step, s', w, id); }
    forall w ensures AnnouncedIsCached(s', w) { CachedKept(s, step, s', w); }
    forall id ensures SaidMeansShown(s', id) { ShownKept(s, step, s', id); }
  }

  lemma {:induction false} RunKeepsInv(states: seq<System>, steps: seq<Step>, i: nat)
    requires Run(states, steps) && i < |states|
    ensures Inv(states[i])
  {
    if i > 0 {
      RunKeepsInv(states, steps, i - 1);
      InvKept(states[i - 1], steps[i - 1], states[i]);
    }
  }

  ghost predicate HasWatch(s: System, namespace: string, resource: Resource) {
    exists w :: w in s.watches && s.watches[w].namespace == namespace && s.watches[w].resource == resource
  }

  /** Every watch of `namespace` is connected and announced, one for each resource, and nothing is under way. */
  ghost predicate Drained(s: System, namespace: string) {
    && s.bus == [] && s.consumer == Waiting
    && (forall w | w in s.watches && s.watches[w].namespace == namespace :: s.watches[w].connection == Up(true, []))
    && (forall resource <- s.resources :: HasWatch(s, namespace, resource))
  }

  /** What the cluster shows in a namespace to the watches of this service: per object its last conversion. */
  function ClusterView(s: System, namespace: string): RoutesByKey
    requires forall id | id in s.cluster :: s.cluster[id] != []
  {
    var keys := set id | id in s.cluster && id.namespace == namespace && KeyWatched(s.resources, id.key) :: id.key;
    map key | key in keys :: s.cluster[Id(namespace, key)][|s.cluster[Id(namespace, key)]| - 1]
  }

  lemma DrainedKeyAgrees(s: System, namespace: string, key: string)
    requires Inv(s) && Drained(s, namespace) && KeyWatched(s.resources, key)
    ensures namespace in s.cache && Lookup(s.cache[namespace], key) == Show(s.cluster, Id(namespace, key))
  {
    var id := Id(namespace, key);
    assert HasWatch(s, namespace, ResourceOf(key).value);
    forall w | w in s.watches && Watches(s.watches[w], id) ensures Final(Pending(s, w), id).None? {
      assert s.watches[w].connection == Up(true, []);
      assert Pending(s, w) == [];
    }
    var w0 :| w0 in s.watches && s.watches[w0].namespace == namespace
        && s.watches[w0].resource == ResourceOf(key).value;
    assert Watches(s.watches[w0], id);
    assert AllSaid(s, id) && SaidMeansShown(s, id);
  }

  /**
   * In every run, however changes, connects, drops, forwards, lists and swaps interleave and however many watches
   * report on the same objects: once a namespace is drained its cached map is what the cluster shows.
   */
  lemma DrainedCacheAgrees(states: seq<System>, steps: seq<Step>, i: nat, namespace: string)
    requires Run(states, steps) && i < |states| && Drained(states[i], namespace)
    ensures forall id | id in states[i].cluster :: states[i].cluster[id] != []
    ensures namespace in states[i].cache && states[i].cache[namespace] == ClusterView(states[i], namespace)
  {
    var s := states[i];
    RunKeepsInv(states, steps, i);
    DrainedKeyAgrees(s, namespace, "Route/");
    ViewAgrees(s, namespace);
  }

  lemma ViewAgrees(s: System, namespace: string)
    requires Inv(s) && Drained(s, namespace) && namespace in s.cache
    ensures s.cache[namespace] == ClusterView(s, namespace)
  {
    var cached, view := s.cache[namespace], ClusterView(s, namespace);
    forall key: string ensures Lookup(cached, key) == Lookup(view, key) {
      if KeyWatched(s.resources, key) {
        DrainedKeyAgrees(s, namespace, key);
        var id := Id(namespace, key);
        assert id in s.cluster ==> s.cluster[id] != [] && key in view;
        assert key in view ==> id in s.cluster;
      }
    }
    SameLookups(cached, view);
  }

  lemma SameLookups(a: RoutesByKey, b: RoutesByKey)
    requires forall key :: Lookup(a, key) == Lookup(b, key)
    ensures a == b
  {
    forall key: string ensures key in a <==> key in b { assert Lookup(a, key) == Lookup(b, key); }
    forall key | key in a ensures a[key] == b[key] { assert Lookup(a, key) == Lookup(b, key); }
  }
}
