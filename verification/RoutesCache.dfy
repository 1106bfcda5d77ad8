/** The in-memory route cache: one map per namespace, replaced by lists and edited by watch events. */
module RoutesCache {
  import opened Strings
  import opened Domain
  import opened SyncPass
  import opened Gateway

  datatype UpdateType = InitType | CreatedType | AddedType | ModifiedType | DeletedType | OtherType(name: string)

  datatype RouteUpdate = RouteUpdate(kind: UpdateType, route: Route)

  predicate Stores(kind: UpdateType) { kind.CreatedType? || kind.AddedType? || kind.ModifiedType? }

  /** One event: it edits its namespace's map, and is ignored while that namespace is not initialised. */
  function Apply(cache: Routes, update: RouteUpdate): Routes {
    var namespace, key := update.route.metadata.namespace, update.route.CacheKey();
    if namespace !in cache then cache
    else if Stores(update.kind) then cache[namespace := cache[namespace][key := update.route]]
    else if update.kind.DeletedType? then cache[namespace := cache[namespace] - {key}]
    else cache
  }

  /** What each kind of update leaves in a namespace that is cached; every other entry stays. */
  lemma ApplyMeans(cache: Routes, update: RouteUpdate, namespace: string, key: string)
    requires namespace in cache
    ensures namespace in Apply(cache, update) && Apply(cache, update).Keys == cache.Keys
    ensures var before, after := cache[namespace], Apply(cache, update)[namespace];
            var hit := update.route.metadata.namespace == namespace && update.route.CacheKey() == key;
            match update.kind
            case CreatedType => if hit then key in after && after[key] == update.route
                else SameEntry(after, before, key)
            case AddedType => if hit then key in after && after[key] == update.route else SameEntry(after, before, key)
            case ModifiedType => if hit then key in after && after[key] == update.route
                else SameEntry(after, before, key)
            case DeletedType => if hit then key !in after else SameEntry(after, before, key)
            case InitType => SameEntry(after, before, key)
            case OtherType(_) => SameEntry(after, before, key)
  {
  }

  /** An update for a namespace that is not cached changes nothing. */
  lemma ApplyElsewhere(cache: Routes, update: RouteUpdate)
    requires update.route.metadata.namespace !in cache
    ensures Apply(cache, update) == cache
  {
  }

  predicate SameEntry(a: RoutesByKey, b: RoutesByKey, key: string) {
    (key in a <==> key in b) && (key in a ==> a[key] == b[key])
  }

  function ApplyAll(cache: Routes, updates: seq<RouteUpdate>): Routes {
    if updates == [] then cache
    else Apply(ApplyAll(cache, updates[..|updates| - 1]), updates[|updates| - 1])
  }

  /** The map a list makes: of routes with the same key the last one stays. */
  function ByKey(routes: seq<Route>): RoutesByKey {
    if routes == [] then map[]
    else ByKey(routes[..|routes| - 1])[routes[|routes| - 1].CacheKey() := routes[|routes| - 1]]
  }

  class RoutesCache {
    var routes: Routes

    constructor (namespace: string, listed: seq<Route>)
      ensures routes == map[namespace := ByKey(listed)]
    {
      var byKey := MapByKey(listed);
      routes := map[namespace := byKey];
    }

    static method MapByKey(listed: seq<Route>) returns (byKey: RoutesByKey)
      ensures byKey == ByKey(listed)
    {
      byKey := map[];
      for i := 0 to |listed|
        invariant byKey == ByKey(listed[..i])
      {
        byKey := byKey[listed[i].CacheKey() := listed[i]];
        assert listed[..i + 1][..i] == listed[..i];
      }
      assert listed[..|listed|] == listed;
    }

    /** Re-list: a list that failed leaves the cache alone, one that succeeded replaces the namespace's map. */
    method InitRoutesMapInCache(namespace: string, listed: Result<seq<Route>>)
      modifies this
      ensures routes == if listed.Ok? then old(routes)[namespace := ByKey(listed.value)] else old(routes)
    {
      if listed.Ok? {
        var byKey := MapByKey(listed.value);
        routes := routes[namespace := byKey];
      }
    }

    /** `listed` is what a list of the update's namespace would return, used only by an INIT update. */
    method UpdateRoutesCache(update: RouteUpdate, listed: Result<seq<Route>>)
      modifies this
      ensures routes == if !update.kind.InitType? then Apply(old(routes), update)
                        else if listed.Ok? then old(routes)[update.route.metadata.namespace := ByKey(listed.value)]
                        else old(routes)
      ensures var namespace, key := update.route.metadata.namespace, update.route.CacheKey();
              namespace in old(routes) && update.kind in {CreatedType, AddedType, ModifiedType} ==>
                namespace in routes && key in routes[namespace] && routes[namespace][key] == update.route
      ensures var namespace, key := update.route.metadata.namespace, update.route.CacheKey();
              namespace in old(routes) && update.kind == DeletedType ==>
                namespace in routes && key !in routes[namespace]
    {
      var namespace := update.route.metadata.namespace;
      if update.kind.InitType? {
        InitRoutesMapInCache(namespace, listed);
      } else {
        if namespace !in routes { return; }
        var namespaced := routes[namespace];
        var key := update.route.CacheKey();
        if update.kind.CreatedType? || update.kind.AddedType? || update.kind.ModifiedType? {
          namespaced := namespaced[key := update.route];
        } else if update.kind.DeletedType? {
          namespaced := namespaced - {key};
        }
        routes := routes[namespace := namespaced];
      }
    }
  }

  // ---------- the event path ----------

  /** The adapter of a watch: one message of the event's type per converted route. */
  function AdapterMessages(kind: UpdateType, o: Object): seq<RouteUpdate> {
    Messages(kind, Convert(o))
  }

  function Messages(kind: UpdateType, routes: seq<Route>): seq<RouteUpdate> {
    seq(|routes|, i requires 0 <= i < |routes| => RouteUpdate(kind, routes[i]))
  }

  /** Messages of one key leave the last route, or nothing after a deletion, and touch nothing else. */
  lemma {:induction false} MessagesOfOneKey(cache: Routes, kind: UpdateType, routes: seq<Route>, namespace: string,
                                            key: string)
    requires namespace in cache && kind in {CreatedType, AddedType, ModifiedType, DeletedType}
    requires forall route <- routes :: route.metadata.namespace == namespace && route.CacheKey() == key
    ensures ApplyAll(cache, Messages(kind, routes)) ==
              if routes == [] then cache
              else if kind.DeletedType? then cache[namespace := cache[namespace] - {key}]
              else cache[namespace := cache[namespace][key := routes[|routes| - 1]]]
  {
    if routes != [] {
      var before := routes[..|routes| - 1];
      MessagesOfOneKey(cache, kind, before, namespace, key);
      var all, last := Messages(kind, routes), routes[|routes| - 1];
      assert all[..|all| - 1] == Messages(kind, before) && all[|all| - 1] == RouteUpdate(kind, last);
      assert last in routes;
      var mid := ApplyAll(cache, Messages(kind, before));
      assert ApplyAll(cache, all) == Apply(mid, RouteUpdate(kind, last));
      assert mid == cache[namespace := mid[namespace]];
      if kind.DeletedType? {
        assert mid[namespace] - {key} == cache[namespace] - {key};
      } else {
        assert mid[namespace][key := last] == cache[namespace][key := last];
      }
    }
  }

  // ---------- the list path ----------

  lemma {:induction false} ByKeyAppend(first: seq<Route>, second: seq<Route>)
    ensures ByKey(first + second) == ByKey(first) + ByKey(second)
  {
    if second == [] {
      assert first + second == first;
    } else {
      ByKeyAppend(first, second[..|second| - 1]);
      assert (first + second)[..|first + second| - 1] == first + second[..|second| - 1];
    }
  }

  lemma {:induction false} ByKeyOfOneKey(routes: seq<Route>, key: string)
    requires forall route <- routes :: route.CacheKey() == key
    ensures ByKey(routes) == if routes == [] then map[] else map[key := routes[|routes| - 1]]
  {
    if routes != [] {
      ByKeyOfOneKey(routes[..|routes| - 1], key);
      assert routes[|routes| - 1] in routes;
    }
  }

  function LastByKey(o: Object): RoutesByKey {
    var routes := Convert(o);
    if routes == [] then map[] else map[ObjectKey(o) := routes[|routes| - 1]]
  }

  lemma ListAdds(objects: seq<Object>)
    requires objects != []
    ensures ByKey(ConvertAll(objects)) ==
              ByKey(ConvertAll(objects[..|objects| - 1])) + LastByKey(objects[|objects| - 1])
  {
    var last := objects[|objects| - 1];
    ByKeyAppend(ConvertAll(objects[..|objects| - 1]), Convert(last));
    ConversionsShareKey(last);
    ByKeyOfOneKey(Convert(last), ObjectKey(last));
  }

  /** What a list of `objects` shows: for each object the last of its conversions, if it has any. */
  function ListView(objects: seq<Object>): RoutesByKey {
    if objects == [] then map[]
    else ListView(objects[..|objects| - 1]) + LastByKey(objects[|objects| - 1])
  }

  lemma {:induction false} ListIsView(objects: seq<Object>)
    ensures ByKey(ConvertAll(objects)) == ListView(objects)
  {
    if objects != [] {
      ListIsView(objects[..|objects| - 1]);
      ListAdds(objects);
    }
  }

  lemma {:induction false} ViewShowsLastConversion(objects: seq<Object>, i: nat)
    requires i < |objects|
    requires forall j | 0 <= j < |objects| && j != i :: ObjectKey(objects[j]) != ObjectKey(objects[i])
    ensures SameEntry(ListView(objects), LastByKey(objects[i]), ObjectKey(objects[i]))
  {
    if i < |objects| - 1 {
      ViewShowsLastConversion(objects[..|objects| - 1], i);
    } else {
      KeyNotInView(objects[..|objects| - 1], ObjectKey(objects[i]));
    }
  }

  lemma {:induction false} KeyNotInView(objects: seq<Object>, key: string)
    requires forall o <- objects :: ObjectKey(o) != key
    ensures key !in ListView(objects)
  {
    if objects != [] {
      KeyNotInView(objects[..|objects| - 1], key);
      assert objects[|objects| - 1] in objects;
    }
  }

  /** A list holds for each object its last conversion, and nothing under other keys. */
  lemma ListEntry(objects: seq<Object>, i: nat)
    requires i < |objects| && Convert(objects[i]) != []
    requires forall j | 0 <= j < |objects| && j != i :: ObjectKey(objects[j]) != ObjectKey(objects[i])
    ensures var listed, key := ByKey(ConvertAll(objects)), ObjectKey(objects[i]);
            key in listed && listed[key] == Convert(objects[i])[|Convert(objects[i])| - 1]
  {
    ListIsView(objects);
    ViewShowsLastConversion(objects, i);
  }

  lemma ListAbsent(objects: seq<Object>, key: string)
    requires forall o <- objects :: ObjectKey(o) != key
    ensures key !in ByKey(ConvertAll(objects))
  {
    ListIsView(objects);
    KeyNotInView(objects, key);
  }

  /**
   * Events and lists agree on an object: after its messages the cache shows for it what a list shows, if and only
   * if the object converts to at least one route or the cache had no entry for it.
   */
  lemma EventsAgreeWithList(cache: Routes, kind: UpdateType, objects: seq<Object>, i: nat)
    requires i < |objects| && kind in {CreatedType, AddedType, ModifiedType}
    requires forall j | 0 <= j < |objects| && j != i :: ObjectKey(objects[j]) != ObjectKey(objects[i])
    requires ObjectNamespace(objects[i]) in cache
    ensures var o, namespace := objects[i], ObjectNamespace(objects[i]);
            var after := ApplyAll(cache, AdapterMessages(kind, o));
            && namespace in after
            && (SameEntry(after[namespace], ByKey(ConvertAll(objects)), ObjectKey(o)) <==>
                Convert(o) != [] || ObjectKey(o) !in cache[namespace])
  {
    ConversionsShareKey(objects[i]);
    MessagesOfOneKey(cache, kind, Convert(objects[i]), ObjectNamespace(objects[i]), ObjectKey(objects[i]));
    ListIsView(objects);
    ViewShowsLastConversion(objects, i);
  }

  /** Deleting an object takes its entry away, under the same condition. */
  lemma DeletionAgreesWithList(cache: Routes, o: Object, remaining: seq<Object>)
    requires forall other <- remaining :: ObjectKey(other) != ObjectKey(o)
    requires ObjectNamespace(o) in cache
    ensures var namespace := ObjectNamespace(o);
            var after := ApplyAll(cache, AdapterMessages(DeletedType, o));
            && namespace in after
            && (SameEntry(after[namespace], ByKey(ConvertAll(remaining)), ObjectKey(o)) <==>
                Convert(o) != [] || ObjectKey(o) !in cache[namespace])
  {
    ConversionsShareKey(o);
    MessagesOfOneKey(cache, DeletedType, Convert(o), ObjectNamespace(o), ObjectKey(o));
    ListIsView(remaining);
    KeyNotInView(remaining, ObjectKey(o));
  }
}
