/** Composite namespaces: dropping the root from a tenant's list, building the one parent chain, searching along it. */
module Composite {
  import opened Strings

  datatype CompositeNamespace = CompositeNamespace(namespace: string, child: Option<CompositeNamespace>)

  /** The namespaces of a chain from the top down. */
  function Path(c: CompositeNamespace): seq<string> {
    [c.namespace] + (if c.child.Some? then Path(c.child.value) else [])
  }

  // ---------- chains ----------

  function Above(root: string, path: seq<string>, i: nat): string
    requires i < |path|
  {
    if i == 0 then root else path[i - 1]
  }

  predicate LinkedAt(root: string, path: seq<string>, parents: map<string, string>, i: nat)
    requires i < |path|
  {
    path[i] in parents && parents[path[i]] != "" && parents[path[i]] == Above(root, path, i)
  }

  /** `path` visits every key once, starting below `root`, each key being the child of the one before it. */
  ghost predicate IsChain(root: string, path: seq<string>, parents: map<string, string>) {
    && path != []
    && (forall key | key in parents :: key in path)
    && (forall i, j | 0 <= i < j < |path| :: path[i] != path[j])
    && (forall i | 0 <= i < |path| :: LinkedAt(root, path, parents, i))
  }

  lemma Link(root: string, path: seq<string>, parents: map<string, string>, i: nat)
    requires IsChain(root, path, parents) && i < |path|
    ensures path[i] in parents && parents[path[i]] != "" && parents[path[i]] == Above(root, path, i)
    ensures i > 0 ==> path[i - 1] in parents
  {
    assert LinkedAt(root, path, parents, i);
    if i > 0 { assert LinkedAt(root, path, parents, i - 1); }
  }

  lemma ChainTail(root: string, path: seq<string>, parents: map<string, string>)
    requires IsChain(root, path, parents) && |path| > 1
    ensures IsChain(path[0], path[1..], parents - {path[0]})
  {
    var rest, less := path[1..], parents - {path[0]};
    forall key | key in less ensures key in rest {
      var i :| 0 <= i < |path| && path[i] == key;
      assert rest[i - 1] == key;
    }
    forall i | 0 <= i < |rest| ensures LinkedAt(path[0], rest, less, i) {
      Link(root, path, parents, i + 1);
    }
  }

  lemma ChainCons(root: string, first: string, rest: seq<string>, parents: map<string, string>)
    requires first in parents && parents[first] == root && root != ""
    requires IsChain(first, rest, parents - {first})
    ensures IsChain(root, [first] + rest, parents)
  {
    var path := [first] + rest;
    forall key | key in parents ensures key in path {
      if key != first { assert key in rest; }
    }
    forall i | 0 <= i < |rest| ensures rest[i] != first { Link(first, rest, parents - {first}, i); }
    forall i | 0 <= i < |path| ensures LinkedAt(root, path, parents, i) {
      if i > 0 { Link(first, rest, parents - {first}, i - 1); }
    }
  }

  /** Below a root that is no key itself, only the head of a chain is a child of the root. */
  lemma OnlyHeadIsChild(root: string, path: seq<string>, parents: map<string, string>, key: string)
    requires IsChain(root, path, parents) && root !in parents && key in parents && parents[key] == root
    ensures key == path[0]
  {
    var i :| 0 <= i < |path| && path[i] == key;
    Link(root, path, parents, i);
  }

  /** There is at most one chain. */
  lemma {:induction false} ChainUnique(root: string, p: seq<string>, q: seq<string>, parents: map<string, string>)
    requires root !in parents && IsChain(root, p, parents) && IsChain(root, q, parents)
    ensures p == q
    decreases |p|
  {
    Link(root, p, parents, 0);
    Link(root, q, parents, 0);
    OnlyHeadIsChild(root, p, parents, q[0]);
    if |p| > 1 && |q| > 1 {
      ChainTail(root, p, parents);
      ChainTail(root, q, parents);
      ChainUnique(p[0], p[1..], q[1..], parents - {p[0]});
      assert p == [p[0]] + p[1..] && q == [q[0]] + q[1..];
    } else if |p| > 1 {
      Link(root, p, parents, 1);
    } else if |q| > 1 {
      Link(root, q, parents, 1);
    }
  }

  /** Two children of one namespace rule a chain out. */
  lemma BranchingHasNoChain(root: string, path: seq<string>, parents: map<string, string>, a: string, b: string)
    requires root !in parents && a in parents && b in parents && a != b && parents[a] == parents[b]
    ensures !IsChain(root, path, parents)
  {
    if IsChain(root, path, parents) {
      var i :| 0 <= i < |path| && path[i] == a;
      var j :| 0 <= j < |path| && path[j] == b;
      Link(root, path, parents, i);
      Link(root, path, parents, j);
    }
  }

  /** A namespace with an empty parent, or with one that is neither the root nor a key, rules a chain out. */
  lemma StrayParentHasNoChain(root: string, path: seq<string>, parents: map<string, string>, a: string)
    requires a in parents && (parents[a] == "" || (parents[a] != root && parents[a] !in parents))
    ensures !IsChain(root, path, parents)
  {
    if IsChain(root, path, parents) {
      var i :| 0 <= i < |path| && path[i] == a;
      Link(root, path, parents, i);
    }
  }

  predicate ParentInside(key: string, parents: map<string, string>, cycle: set<string>) {
    key in parents && parents[key] in cycle
  }

  /** Namespaces that have their parents among themselves rule a chain out. */
  lemma CycleHasNoChain(root: string, path: seq<string>, parents: map<string, string>, cycle: set<string>)
    requires root !in parents && cycle != {}
    requires forall key {:trigger ParentInside(key, parents, cycle)} | key in cycle :: ParentInside(key, parents, cycle)
    ensures !IsChain(root, path, parents)
  {
    if IsChain(root, path, parents) {
      var key :| key in cycle;
      assert ParentInside(key, parents, cycle);
      var i: nat :| i < |path| && path[i] == key;
      CycleReachesRoot(root, path, parents, cycle, i);
    }
  }

  lemma {:induction false} CycleReachesRoot(root: string, path: seq<string>, parents: map<string, string>,
                                            cycle: set<string>, i: nat)
    requires IsChain(root, path, parents) && i < |path| && path[i] in cycle
    requires forall key {:trigger ParentInside(key, parents, cycle)} | key in cycle :: ParentInside(key, parents, cycle)
    ensures root in parents
  {
    assert ParentInside(path[i], parents, cycle);
    Link(root, path, parents, i);
    if i > 0 {
      CycleReachesRoot(root, path, parents, cycle, i - 1);
    } else {
      assert ParentInside(root, parents, cycle);
    }
  }

  /** At most one namespace has `root` as its parent. */
  ghost predicate OneChild(root: string, parents: map<string, string>) {
    forall a, b | a in parents && b in parents && parents[a] == root && parents[b] == root :: a == b
  }

  lemma ChainHasOneChild(root: string, path: seq<string>, parents: map<string, string>)
    requires IsChain(root, path, parents) && root !in parents
    ensures OneChild(root, parents)
  {
    forall a, b | a in parents && b in parents && parents[a] == root && parents[b] == root ensures a == b {
      OnlyHeadIsChild(root, path, parents, a);
      OnlyHeadIsChild(root, path, parents, b);
    }
  }

  /** A root that is a key, with two children: there is a chain, but starting with the other child misses it. */
  lemma OrderCanDecide(root: string, a: string, b: string)
    requires root != "" && a != "" && b != "" && root != a && root != b && a != b
    ensures var parents := map[a := root, b := root, root := a];
            IsChain(root, [a, root, b], parents) && forall path :: !IsChain(b, path, parents - {b})
  {
    var parents := map[a := root, b := root, root := a];
    var path := [a, root, b];
    forall i | 0 <= i < |path| ensures LinkedAt(root, path, parents, i) {}
    forall other | IsChain(b, other, parents - {b}) ensures false { Link(b, other, parents - {b}, 0); }
  }

  /** Where there is a chain, each child of the root leads to one if and only if the root has but one child. */
  lemma EveryChildLeadsOnIff(root: string, path: seq<string>, parents: map<string, string>)
    requires IsChain(root, path, parents) && |parents| > 1
    ensures OneChild(root, parents) <==>
              forall c | c in parents && parents[c] == root :: exists rest :: IsChain(c, rest, parents - {c})
  {
    if OneChild(root, parents) {
      forall c | c in parents && parents[c] == root ensures exists rest :: IsChain(c, rest, parents - {c}) {
        ChainGoesOn(root, path, parents, c);
      }
    } else {
      Link(root, path, parents, 0);
      var c :| c in parents && parents[c] == root && c != path[0];
      forall rest ensures !IsChain(c, rest, parents - {c}) { OtherChildLeadsNowhere(root, path, parents, c, rest); }
    }
  }

  /** From another child than the head of the chain the namespaces above that child are a cycle out of reach. */
  lemma OtherChildLeadsNowhere(root: string, path: seq<string>, parents: map<string, string>, c: string,
                               rest: seq<string>)
    requires IsChain(root, path, parents) && c in parents && parents[c] == root && c != path[0]
    ensures !IsChain(c, rest, parents - {c})
  {
    var k: nat :| k < |path| && path[k] == c;
    Link(root, path, parents, k);
    var cycle := set i | 0 <= i < k :: path[i];
    forall key | key in cycle ensures ParentInside(key, parents - {c}, cycle) {
      var i: nat :| i < k && path[i] == key;
      Link(root, path, parents, i);
      assert parents[key] == if i == 0 then path[k - 1] else path[i - 1];
    }
    assert path[0] in cycle;
    CycleHasNoChain(c, rest, parents - {c}, cycle);
  }

  predicate SomeParentIsEmpty(parents: map<string, string>) { exists key :: key in parents && parents[key] == "" }

  predicate IsChild(c: string, root: string, parents: map<string, string>) { c in parents && parents[c] == root }

  /** Some order of the keys makes the walk from `root` fail. */
  ghost predicate CanFail(root: string, parents: map<string, string>)
    decreases |parents|
  {
    || SomeParentIsEmpty(parents)
    || (forall c :: !IsChild(c, root, parents))
    || (exists c :: IsChild(c, root, parents) && ChildCanFail(c, parents))
  }

  ghost predicate ChildCanFail(c: string, parents: map<string, string>)
    requires c in parents
    decreases |parents|, 0
  {
    |parents - {c}| > 0 && CanFail(c, parents - {c})
  }

  /** The walk succeeds whatever the order of the keys if and only if there is a chain and the root has one child. */
  lemma NeverFailsIff(root: string, parents: map<string, string>)
    ensures !CanFail(root, parents) <==> OneChild(root, parents) && exists path :: IsChain(root, path, parents)
  {
    if OneChild(root, parents) {
      forall path | IsChain(root, path, parents) ensures !CanFail(root, parents) {
        ChainNeverFails(root, path, parents);
      }
    }
    if !CanFail(root, parents) {
      var c :| IsChild(c, root, parents);
      var path := ChainBelowChild(root, parents, c);
      NeverFailsOneChild(root, path, parents);
    }
  }

  lemma NeverFailsOneChild(root: string, path: seq<string>, parents: map<string, string>)
    requires !CanFail(root, parents) && IsChain(root, path, parents)
    ensures OneChild(root, parents)
  {
    Link(root, path, parents, 0);
    if |parents| > 1 {
      forall c | c in parents && parents[c] == root ensures exists rest :: IsChain(c, rest, parents - {c}) {
        ChildLeadsOn(root, parents, c);
      }
      EveryChildLeadsOnIff(root, path, parents);
    } else {
      assert |parents.Keys - {path[0]}| == 0;
    }
  }

  lemma ChildLeadsOn(root: string, parents: map<string, string>, c: string)
    requires !CanFail(root, parents) && IsChild(c, root, parents) && |parents| > 1
    ensures exists rest :: IsChain(c, rest, parents - {c})
  {
    assert !ChildCanFail(c, parents);
    assert |(parents - {c}).Keys| == |parents.Keys - {c}|;
    assert !CanFail(c, parents - {c});
    var d :| IsChild(d, c, parents - {c});
    var rest := ChainBelowChild(c, parents - {c}, d);
  }

  lemma {:induction false} ChainBelowChild(root: string, parents: map<string, string>, c: string)
    returns (path: seq<string>)
    requires !CanFail(root, parents) && IsChild(c, root, parents)
    ensures IsChain(root, path, parents)
    decreases |parents|
  {
    assert !ChildCanFail(c, parents) && !SomeParentIsEmpty(parents);
    assert |(parents - {c}).Keys| == |parents.Keys - {c}|;
    if |parents - {c}| > 0 {
      assert !CanFail(c, parents - {c});
      var d :| IsChild(d, c, parents - {c});
      var rest := ChainBelowChild(c, parents - {c}, d);
      path := [c] + rest;
      ChainCons(root, c, rest, parents);
    } else {
      path := [c];
      assert parents.Keys == {c};
    }
  }

  lemma ChainHasParents(root: string, path: seq<string>, parents: map<string, string>)
    requires IsChain(root, path, parents)
    ensures !SomeParentIsEmpty(parents) && IsChild(path[0], root, parents)
    ensures |parents - {path[0]}| > 0 ==> |path| > 1 && IsChain(path[0], path[1..], parents - {path[0]})
    ensures path[0] !in parents - {path[0]}
  {
    Link(root, path, parents, 0);
    forall key | key in parents ensures parents[key] != "" {
      if parents[key] == "" { StrayParentHasNoChain(root, path, parents, key); }
    }
    if |parents - {path[0]}| > 0 {
      var other :| other in parents - {path[0]};
      var i :| 0 <= i < |path| && path[i] == other;
      ChainTail(root, path, parents);
    }
  }

  lemma {:induction false} ChainNeverFails(root: string, path: seq<string>, parents: map<string, string>)
    requires IsChain(root, path, parents) && OneChild(root, parents)
    ensures !CanFail(root, parents)
    decreases |path|
  {
    ChainHasParents(root, path, parents);
    if |parents - {path[0]}| > 0 {
      ChainHasOneChild(path[0], path[1..], parents - {path[0]});
      ChainNeverFails(path[0], path[1..], parents - {path[0]});
    }
    assert !ChildCanFail(path[0], parents);
    forall c | IsChild(c, root, parents) ensures c == path[0] {}
  }

  class Configmaps {
    /** The parent recorded in each namespace's configmap. */
    var parents: map<string, string>

    constructor (parents: map<string, string>)
      ensures this.parents == parents
    {
      this.parents := parents;
    }
  }

  /**
   * Walks down from `root`, deleting each namespace it places. Below a root that is no key it succeeds exactly when
   * the parents form one chain through all keys, whatever order the keys are tried in. A root that is a key can have
   * two children and still a chain; then alone the order decides, and an answer is a chain all the same.
   */
  method ResolveChildForNamespace(root: string, configmaps: Configmaps) returns (result: Result<CompositeNamespace>)
    modifies configmaps
    ensures configmaps.parents.Keys <= old(configmaps.parents).Keys
    ensures result.Ok? ==> IsChain(root, Path(result.value), old(configmaps.parents)) && configmaps.parents == map[]
    ensures result.Err? && OneChild(root, old(configmaps.parents)) ==>
              forall path :: !IsChain(root, path, old(configmaps.parents))
    ensures result.Err? ==> CanFail(root, old(configmaps.parents))
    ensures result.Err? && root !in old(configmaps.parents) ==>
              forall path :: !IsChain(root, path, old(configmaps.parents))
    decreases |configmaps.parents|
  {
    ghost var before := configmaps.parents;
    var todo := configmaps.parents.Keys;
    while todo != {}
      invariant todo <= before.Keys && configmaps.parents == before
      invariant forall key | key in before && key !in todo :: before[key] != root
      decreases todo
    {
      var namespace :| namespace in todo;
      var parent := configmaps.parents[namespace];
      if parent == "" {
        forall path ensures !IsChain(root, path, before) { StrayParentHasNoChain(root, path, before, namespace); }
        return Err("Parent was not found in configmap");
      }
      if parent == root {
        configmaps.parents := configmaps.parents - {namespace};
        assert configmaps.parents.Keys == before.Keys - {namespace};
        if |configmaps.parents| > 0 {
          result := ResolveChildForNamespace(namespace, configmaps);
          ghost var rest := before - {namespace};
          if result.Ok? {
            ChainCons(root, namespace, Path(result.value), before);
            return Ok(CompositeNamespace(namespace, Some(result.value)));
          }
          assert IsChild(namespace, root, before) && ChildCanFail(namespace, before);
          if OneChild(root, before) {
            forall path | IsChain(root, path, before) ensures false { ChainGoesOn(root, path, before, namespace); }
          }
          if root !in before {
            forall path | IsChain(root, path, before) ensures false { ChainHasOneChild(root, path, before); }
          }
          return result;
        } else {
          assert before.Keys == {namespace} && Path(CompositeNamespace(namespace, None)) == [namespace];
          return Ok(CompositeNamespace(namespace, None));
        }
      }
      todo := todo - {namespace};
    }
    forall path | IsChain(root, path, before) ensures false { Link(root, path, before, 0); }
    result := Err("Cannot build hierarchy for namespaces");
  }

  lemma ChainGoesOn(root: string, path: seq<string>, parents: map<string, string>, head: string)
    requires IsChain(root, path, parents) && OneChild(root, parents) && head in parents && parents[head] == root
    requires |parents - {head}| > 0
    ensures exists rest :: IsChain(head, rest, parents - {head})
  {
    Link(root, path, parents, 0);
    var other :| other in parents - {head};
    var i :| 0 <= i < |path| && path[i] == other;
    ChainTail(root, path, parents);
  }

  // ---------- dropping the root from a list that shares its backing array ----------

  function Without(items: seq<string>, root: string): seq<string> {
    if items == [] then []
    else
      var last := items[|items| - 1];
      Without(items[..|items| - 1], root) + (if last == root then [] else [last])
  }

  /** The items in their order, every one that is not the root and no other. */
  lemma WithoutMeans(items: seq<string>, root: string)
    ensures root !in Without(items, root)
    ensures root !in items ==> Without(items, root) == items
    ensures forall x | x != root :: multiset(Without(items, root))[x] == multiset(items)[x]
  {
    WithoutHasNoRoot(items, root);
    forall x | x != root ensures multiset(Without(items, root))[x] == multiset(items)[x] {
      WithoutKeeps(items, root, x);
    }
  }

  lemma {:induction false} WithoutHasNoRoot(items: seq<string>, root: string)
    ensures root !in Without(items, root)
    ensures root !in items ==> Without(items, root) == items
  {
    if items != [] {
      WithoutHasNoRoot(items[..|items| - 1], root);
      assert items == items[..|items| - 1] + [items[|items| - 1]];
    }
  }

  lemma {:induction false} WithoutKeeps(items: seq<string>, root: string, x: string)
    requires x != root
    ensures multiset(Without(items, root))[x] == multiset(items)[x]
  {
    if items != [] {
      WithoutKeeps(items[..|items| - 1], root, x);
      assert items == items[..|items| - 1] + [items[|items| - 1]];
    }
  }

  predicate Twins(items: seq<string>, p: int, root: string) {
    0 <= p < |items| - 1 && items[p] == root && items[p + 1] == root
  }

  /** No two neighbours are the root, and the root stands last only if it stands nowhere else. */
  predicate RemovesCleanly(items: seq<string>, root: string) {
    && (forall p | 0 <= p < |items| - 1 :: !Twins(items, p, root))
    && (items != [] && items[|items| - 1] == root ==> root !in items[..|items| - 1])
  }

  /** From `from` on `now` holds the old items moved `shifts` places to the left, the last one repeated. */
  ghost predicate Moved(before: seq<string>, now: seq<string>, from: nat, shifts: nat) {
    && |now| == |before|
    && (forall q {:trigger now[q]} | from <= q < |now| - shifts :: now[q] == before[q + shifts])
    && (forall q {:trigger now[q]} | from <= q < |now| && q >= |now| - shifts :: now[q] == before[|now| - 1])
  }

  /** The roots among the first `seen` items were all removed, none had a root behind it, and the last item is none. */
  ghost predicate CleanTo(before: seq<string>, seen: nat, shifts: nat, root: string) {
    && seen <= |before|
    && (forall p | p < seen :: !Twins(before, p, root))
    && (seen == |before| && seen > 0 ==> before[seen - 1] != root)
    && (shifts == 0 <==> root !in before[..seen])
  }

  function Seen(n: nat, i: nat, shifts: nat): nat { if i + shifts < n then i + shifts else n }

  function Kept(now: seq<string>, i: nat, length: nat): seq<string>
    requires i <= |now|
  {
    if i < length then now[..i] else if length <= |now| then now[..length] else now
  }

  /** Nothing went wrong up to index `i`, and `shifts` roots were removed. */
  ghost predicate Open(before: seq<string>, now: seq<string>, i: nat, length: nat, shifts: nat, root: string) {
    && Moved(before, now, i, shifts) && i <= |now| && shifts <= i && length + shifts == |now|
    && CleanTo(before, Seen(|before|, i, shifts), shifts, root)
    && Kept(now, i, length) == Without(before[..Seen(|before|, i, shifts)], root)
  }

  /** The root was found last and cut off just before index `i`. */
  ghost predicate Closed(before: seq<string>, now: seq<string>, i: nat, length: nat, root: string) {
    && |now| == |before| && length + 1 == i <= |now|
    && now[..length] == Without(before, root)
    && (forall q | length <= q < |now| :: now[q] == root)
    && (i == |now| <==> RemovesCleanly(before, root))
  }

  lemma WithoutSnoc(items: seq<string>, k: nat, root: string)
    requires k < |items|
    ensures Without(items[..k + 1], root) == Without(items[..k], root) + (if items[k] == root then [] else [items[k]])
    ensures root in items[..k + 1] <==> root in items[..k] || items[k] == root
  {
    assert items[..k + 1][..k] == items[..k];
    assert items[..k + 1] == items[..k] + [items[k]];
  }

  /** `now'` is `now` with the rest of its first `length` items moved one place onto index `i`. */
  ghost predicate RemovedAt(now: seq<string>, now': seq<string>, i: nat, length: nat) {
    && |now'| == |now| && i < length <= |now|
    && (forall q {:trigger now'[q]} | i <= q < length - 1 :: now'[q] == now[q + 1])
    && (forall q {:trigger now'[q]} | 0 <= q < |now| && !(i <= q < length - 1) :: now'[q] == now[q])
  }

  lemma CleanSnoc(before: seq<string>, seen: nat, shifts: nat, root: string)
    requires CleanTo(before, seen, shifts, root) && seen < |before| && before[seen] != root
    ensures CleanTo(before, seen + 1, shifts, root)
  {
    WithoutSnoc(before, seen, root);
  }

  lemma CleanSkip(before: seq<string>, seen: nat, shifts: nat, root: string)
    requires CleanTo(before, seen, shifts, root) && seen + 1 < |before| && before[seen] == root
              && before[seen + 1] != root
    ensures CleanTo(before, seen + 2, shifts + 1, root)
  {
    WithoutSnoc(before, seen, root);
    WithoutSnoc(before, seen + 1, root);
    forall p | p < seen + 1 ensures !Twins(before, p, root) {}
  }

  lemma MovedShift(before: seq<string>, now: seq<string>, now': seq<string>, i: nat, length: nat, shifts: nat)
    requires Moved(before, now, i, shifts) && length + shifts == |now| && i < length - 1
              && RemovedAt(now, now', i, length)
    ensures Moved(before, now', i + 1, shifts + 1)
  {
    forall q | i + 1 <= q < |now| - (shifts + 1) ensures now'[q] == before[q + (shifts + 1)] {
      assert now'[q] == now[q + 1];
    }
    forall q | i + 1 <= q < |now| && q >= |now| - (shifts + 1) ensures now'[q] == before[|now| - 1] {
      assert now'[q] == now[q];
      if q == length - 1 { assert now[q] == before[q + shifts]; }
    }
  }

  lemma OpenKeeps(before: seq<string>, now: seq<string>, i: nat, length: nat, shifts: nat, root: string)
    requires Open(before, now, i, length, shifts, root) && i < |now| && now[i] != root
    ensures Open(before, now, i + 1, length, shifts, root)
  {
    if i < length {
      assert now[i] == before[i + shifts];
      KeptSnoc(before, now, i, i + shifts, root);
      CleanSnoc(before, i + shifts, shifts, root);
    }
  }

  lemma KeptSnoc(before: seq<string>, now: seq<string>, i: nat, seen: nat, root: string)
    requires i < |now| && seen < |before| && now[..i] == Without(before[..seen], root)
    requires now[i] == before[seen] && now[i] != root
    ensures now[..i + 1] == Without(before[..seen + 1], root)
  {
    WithoutSnoc(before, seen, root);
    assert now[..i + 1] == now[..i] + [now[i]];
  }

  lemma KeptShift(before: seq<string>, now: seq<string>, now': seq<string>, i: nat, seen: nat, root: string)
    requires seen + 1 < |before| && before[seen] == root && before[seen + 1] != root
    requires i < |now| == |now'| && now'[..i] == now[..i] && now[..i] == Without(before[..seen], root)
    requires now'[i] == before[seen + 1]
    ensures now'[..i + 1] == Without(before[..seen + 2], root)
  {
    WithoutSnoc(before, seen, root);
    WithoutSnoc(before, seen + 1, root);
    assert now'[..i + 1] == now'[..i] + [now'[i]];
  }

  lemma OpenShifts(before: seq<string>, now: seq<string>, now': seq<string>, i: nat, length: nat, shifts: nat,
                   root: string)
    requires Open(before, now, i, length, shifts, root) && i < length - 1 && now[i] == root
              && RemovedAt(now, now', i, length)
    ensures if now'[i] == root then !RemovesCleanly(before, root)
              else Open(before, now', i + 1, length - 1, shifts + 1, root)
  {
    var seen := i + shifts;
    assert now[i] == before[seen] && now[i + 1] == before[seen + 1] && now'[i] == now[i + 1];
    if now'[i] == root {
      assert Twins(before, seen, root);
    } else {
      OpenShiftsOn(before, now, now', i, length, shifts, root);
    }
  }

  lemma OpenShiftsOn(before: seq<string>, now: seq<string>, now': seq<string>, i: nat, length: nat, shifts: nat,
                     root: string)
    requires Open(before, now, i, length, shifts, root) && i < length - 1 && now[i] == root
    requires RemovedAt(now, now', i, length) && now[i + 1] != root
    requires now[i] == before[i + shifts] && now[i + 1] == before[i + shifts + 1]
    ensures Open(before, now', i + 1, length - 1, shifts + 1, root)
  {
    assert now'[..i] == now[..i];
    MovedShift(before, now, now', i, length, shifts);
    CleanSkip(before, i + shifts, shifts, root);
    KeptShift(before, now, now', i, i + shifts, root);
  }

  lemma OpenCloses(before: seq<string>, now: seq<string>, i: nat, length: nat, shifts: nat, root: string)
    requires Open(before, now, i, length, shifts, root) && i < |now| && i >= length - 1 && now[i] == root
    ensures Closed(before, now, i + 1, i, root)
  {
    var n := |before|;
    assert i == length - 1 && i + shifts == n - 1 && before[n - 1] == root;
    assert before[..n] == before && before[..n][..n - 1] == before[..n - 1];
    assert i + 1 == n <==> shifts == 0;
  }

  lemma OpenEnds(before: seq<string>, now: seq<string>, length: nat, shifts: nat, root: string)
    requires Open(before, now, |now|, length, shifts, root)
    ensures RemovesCleanly(before, root) && now[..length] == Without(before, root)
  {
    assert before[..|before|] == before;
  }

  /** The list with the item at `i` overwritten by moving the rest of its first `length` items one place left. */
  function RemoveFrom(now: seq<string>, i: nat, length: nat): (now': seq<string>)
    requires i < length <= |now|
    ensures RemovedAt(now, now', i, length)
  {
    now[..i] + now[i + 1..length] + now[length - 1..]
  }

  /** The rest of the loop from index `i` on: the backing array it leaves and the length it returns. */
  function DropFrom(now: seq<string>, i: nat, length: nat, root: string): (r: (seq<string>, nat))
    requires i <= |now| && length <= |now|
    ensures |r.0| == |now| && r.1 <= |now|
    decreases |now| - i
  {
    if i == |now| then (now, length)
    else if now[i] != root then DropFrom(now, i + 1, length, root)
    else if i < length - 1 then DropFrom(RemoveFrom(now, i, length), i + 1, length - 1, root)
    else DropFrom(now, i + 1, i, root)
  }

  /**
   * The loop that drops `root` while ranging over the list it shortens, its bound fixed at entry; `length` is the
   * length of the shortened list.
   */
  method DropNamespace(a: array<string>, root: string) returns (length: nat)
    modifies a
    ensures (a[..], length) == DropFrom(old(a[..]), 0, a.Length, root)
  {
    length := a.Length;
    for i := 0 to a.Length
      invariant length <= a.Length
      invariant DropFrom(a[..], i, length, root) == DropFrom(old(a[..]), 0, a.Length, root)
    {
      if a[i] == root {
        if i < length - 1 {
          RemoveAt(a, i, length);
          length := length - 1;
        } else {
          length := i;
        }
      }
    }
  }

  /** `append(s[:i], s[i+1:]...)` within the capacity of `s`. */
  method RemoveAt(a: array<string>, i: nat, length: nat)
    requires i < length <= a.Length
    modifies a
    ensures a[..] == RemoveFrom(old(a[..]), i, length)
  {
    for j := i to length - 1
      invariant forall q | 0 <= q < a.Length :: a[q] == if i <= q < j then old(a[q + 1]) else old(a[q])
    {
      a[j] := a[j + 1];
    }
  }

  /**
   * The rest of the loop returns the list without the root if and only if that removes cleanly, and else leaves a
   * root.
   */
  ghost predicate RightIff(before: seq<string>, now: seq<string>, i: nat, length: nat, root: string)
    requires i <= |now| && length <= |now|
  {
    var (end, kept) := DropFrom(now, i, length, root);
    && (RemovesCleanly(before, root) <==> end[..kept] == Without(before, root))
    && (!RemovesCleanly(before, root) ==> root in end[..kept])
  }

  lemma DropIsRightIff(before: seq<string>, root: string)
    ensures var (now, length) := DropFrom(before, 0, |before|, root);
            && (RemovesCleanly(before, root) <==> now[..length] == Without(before, root))
            && (!RemovesCleanly(before, root) ==> root in now[..length])
  {
    assert before[..0] == [];
    OpenIsRight(before, before, 0, |before|, 0, root);
  }

  /** A root left behind the index stays in the result. */
  lemma {:induction false} RootStays(now: seq<string>, i: nat, length: nat, q: nat, root: string)
    requires i <= |now| && length <= |now| && q < i && q < length && now[q] == root
    ensures var (end, kept) := DropFrom(now, i, length, root); root in end[..kept]
    decreases |now| - i
  {
    if i == |now| {
      assert now[..length][q] == root;
    } else if now[i] != root {
      RootStays(now, i + 1, length, q, root);
    } else if i < length - 1 {
      RootStays(RemoveFrom(now, i, length), i + 1, length - 1, q, root);
    } else {
      RootStays(now, i + 1, i, q, root);
    }
  }

  lemma ClosedIsRight(before: seq<string>, now: seq<string>, i: nat, length: nat, root: string)
    requires Closed(before, now, i, length, root)
    ensures RightIff(before, now, i, length, root)
  {
    if i < |now| {
      assert now[i] == root && now[length] == root;
      RootStays(now, i + 1, i, length, root);
      WithoutMeans(before, root);
    }
  }

  lemma RightStep(before: seq<string>, now: seq<string>, i: nat, length: nat, root: string)
    requires i < |now| && length <= |now|
    requires if now[i] != root then RightIff(before, now, i + 1, length, root)
             else if i < length - 1 then RightIff(before, RemoveFrom(now, i, length), i + 1, length - 1, root)
             else RightIff(before, now, i + 1, i, root)
    ensures RightIff(before, now, i, length, root)
  {
  }

  lemma OpenEndIsRight(before: seq<string>, now: seq<string>, length: nat, shifts: nat, root: string)
    requires Open(before, now, |now|, length, shifts, root) && length <= |now|
    ensures RightIff(before, now, |now|, length, root)
  {
    OpenEnds(before, now, length, shifts, root);
  }

  lemma OpenCutIsRight(before: seq<string>, now: seq<string>, i: nat, length: nat, shifts: nat, root: string)
    requires Open(before, now, i, length, shifts, root) && i < |now| && i >= length - 1 && now[i] == root
              && length <= |now|
    ensures RightIff(before, now, i, length, root)
  {
    OpenCloses(before, now, i, length, shifts, root);
    ClosedIsRight(before, now, i + 1, i, root);
    RightStep(before, now, i, length, root);
  }

  lemma SpoiledIsRight(before: seq<string>, now: seq<string>, i: nat, length: nat, q: nat, root: string)
    requires !RemovesCleanly(before, root)
    requires i <= |now| && length <= |now| && q < i && q < length && now[q] == root
    ensures RightIff(before, now, i, length, root)
  {
    RootStays(now, i, length, q, root);
    WithoutMeans(before, root);
  }

  lemma {:induction false} OpenShiftIsRight(before: seq<string>, now: seq<string>, i: nat, length: nat, shifts: nat,
                                            root: string)
    requires Open(before, now, i, length, shifts, root) && i < length - 1 && now[i] == root && length <= |now|
    ensures RightIff(before, now, i, length, root)
    decreases |now| - i, 0
  {
    var now' := RemoveFrom(now, i, length);
    OpenShifts(before, now, now', i, length, shifts, root);
    if now'[i] == root { SpoiledIsRight(before, now', i + 1, length - 1, i, root); }
    else { OpenIsRight(before, now', i + 1, length - 1, shifts + 1, root); }
    RightStep(before, now, i, length, root);
  }

  lemma {:induction false} OpenKeepIsRight(before: seq<string>, now: seq<string>, i: nat, length: nat, shifts: nat,
                                           root: string)
    requires Open(before, now, i, length, shifts, root) && i < |now| && now[i] != root && length <= |now|
    ensures RightIff(before, now, i, length, root)
    decreases |now| - i, 0
  {
    OpenKeeps(before, now, i, length, shifts, root);
    OpenIsRight(before, now, i + 1, length, shifts, root);
    RightStep(before, now, i, length, root);
  }

  lemma {:induction false} OpenIsRight(before: seq<string>, now: seq<string>, i: nat, length: nat, shifts: nat,
                                       root: string)
    requires Open(before, now, i, length, shifts, root) && i <= |now| && length <= |now|
    ensures RightIff(before, now, i, length, root)
    decreases |now| - i, 1
  {
    if i == |now| {
      OpenEndIsRight(before, now, length, shifts, root);
    } else if now[i] != root {
      OpenKeepIsRight(before, now, i, length, shifts, root);
    } else if i < length - 1 {
      OpenShiftIsRight(before, now, i, length, shifts, root);
    } else {
      OpenCutIsRight(before, now, i, length, shifts, root);
    }
  }

  /**
   * Where the root stands once, at `p`, the caller's own list keeps its length: its tail moves left, its last item
   * repeats.
   */
  lemma CallerSeesShift(before: seq<string>, root: string, p: nat)
    requires p < |before| - 1 && before[p] == root && root !in before[..p] && root !in before[p + 1..]
    ensures DropFrom(before, 0, |before|, root) ==
              (before[..p] + before[p + 1..] + [before[|before| - 1]], |before| - 1)
  {
    SkipOthers(before, 0, p, |before|, root);
    var now := RemoveFrom(before, p, |before|);
    assert forall q | p < q < |before| :: before[q] in before[p + 1..];
    SkipOthers(now, p + 1, |now|, |before| - 1, root);
    assert now == before[..p] + before[p + 1..] + [before[|before| - 1]];
  }

  /** Whatever the loop does to the caller's list, no namespace but the root can leave it or come in. */
  lemma {:induction false} DropKeepsOthers(now: seq<string>, i: nat, length: nat, root: string, x: string)
    requires i <= |now| && length <= |now| && x != root
    ensures x in DropFrom(now, i, length, root).0 <==> x in now
    decreases |now| - i
  {
    if i < |now| {
      if now[i] != root {
        DropKeepsOthers(now, i + 1, length, root, x);
      } else if i < length - 1 {
        var now' := RemoveFrom(now, i, length);
        assert now == now[..i] + [now[i]] + now[i + 1..length] + now[length..];
        assert now' == now[..i] + now[i + 1..length] + now[length - 1..];
        assert now[length - 1] in now[i + 1..length] && now[length - 1..] == [now[length - 1]] + now[length..];
        DropKeepsOthers(now', i + 1, length - 1, root, x);
      } else {
        DropKeepsOthers(now, i + 1, i, root, x);
      }
    }
  }

  /** Behind the first root stand only roots. */
  predicate RootsLast(items: seq<string>, root: string) {
    forall i, j | 0 <= i < j < |items| && items[i] == root :: items[j] == root
  }

  /** The caller's list stays as it was if and only if no other namespace follows a root. */
  lemma CallerKeepsListIff(before: seq<string>, root: string)
    ensures DropFrom(before, 0, |before|, root).0 == before <==> RootsLast(before, root)
  {
    if root in before {
      var p := FirstRoot(before, root);
      SkipOthers(before, 0, p, |before|, root);
      if RootsLast(before, root) {
        OnlyRootsKeep(before, p, |before|, root);
      } else {
        var q := FirstOtherBehind(before, p, root);
        var now := RemoveFrom(before, p, |before|);
        assert now[q - 1] == before[q];
        OtherStaysLeft(now, p + 1, |before| - 1, p, q, root);
      }
    } else {
      SkipOthers(before, 0, |before|, |before|, root);
    }
  }

  lemma FirstRoot(items: seq<string>, root: string) returns (p: nat)
    requires root in items
    ensures p < |items| && items[p] == root && root !in items[..p]
  {
    p := 0;
    while items[p] != root
      invariant p < |items| && root in items[p..] && root !in items[..p]
      decreases |items| - p
    {
      assert items[p..] == [items[p]] + items[p + 1..];
      p := p + 1;
    }
  }

  /** The first namespace that is no root behind the root at `p`. */
  lemma FirstOtherBehind(items: seq<string>, p: nat, root: string) returns (q: nat)
    requires p < |items| && items[p] == root && root !in items[..p] && !RootsLast(items, root)
    ensures p < q < |items| && items[q] != root && forall x | p <= x < q :: items[x] == root
  {
    var i, j :| 0 <= i < j < |items| && items[i] == root && items[j] != root;
    assert forall x | 0 <= x < p :: items[x] in items[..p];
    q := p + 1;
    while items[q] == root
      invariant p < q <= j && forall x | p <= x < q :: items[x] == root
      decreases j - q
    {
      q := q + 1;
    }
  }

  lemma {:induction false} OnlyRootsKeep(now: seq<string>, i: nat, length: nat, root: string)
    requires i <= |now| && length <= |now| && forall x | i <= x < |now| :: now[x] == root
    ensures DropFrom(now, i, length, root).0 == now
    decreases |now| - i
  {
    if i < |now| {
      if i < length - 1 {
        assert RemoveFrom(now, i, length) == now;
        OnlyRootsKeep(now, i + 1, length - 1, root);
      } else {
        OnlyRootsKeep(now, i + 1, i, root);
      }
    }
  }

  ghost predicate OtherWithin(items: seq<string>, p: nat, q: nat, root: string) {
    exists x :: p <= x < q && x < |items| && items[x] != root
  }

  /** A namespace that is no root stands between `p` and `q` for good once it does. */
  lemma {:induction false} OtherStaysLeft(now: seq<string>, i: nat, length: nat, p: nat, q: nat, root: string)
    requires p <= i <= |now| && length <= |now| && OtherWithin(now, p, q, root)
    ensures OtherWithin(DropFrom(now, i, length, root).0, p, q, root)
    decreases |now| - i
  {
    if i < |now| {
      if now[i] != root {
        OtherStaysLeft(now, i + 1, length, p, q, root);
      } else if i < length - 1 {
        var x :| p <= x < q && x < |now| && now[x] != root;
        var now' := RemoveFrom(now, i, length);
        assert if i < x < length then now'[x - 1] == now[x] else now'[x] == now[x];
        OtherStaysLeft(now', i + 1, length - 1, p, q, root);
      } else {
        OtherStaysLeft(now, i + 1, i, p, q, root);
      }
    }
  }

  lemma {:induction false} SkipOthers(now: seq<string>, i: nat, p: nat, length: nat, root: string)
    requires i <= p <= |now| && length <= |now| && forall q | i <= q < p :: now[q] != root
    ensures DropFrom(now, i, length, root) == DropFrom(now, p, length, root)
    decreases p - i
  {
    if i < p { SkipOthers(now, i + 1, p, length, root); }
  }

  // ---------- the namespaces of one tenant ----------

  /** The parents recorded for `namespaces`, if every one of them has a configmap. */
  method GetConfigMapsForNamespaces(namespaces: seq<string>, recorded: map<string, string>)
    returns (result: Result<map<string, string>>)
    ensures result.Ok? <==> forall namespace <- namespaces :: namespace in recorded
    ensures result.Ok? ==> result.value == ParentsOf(namespaces, recorded)
  {
    var found: map<string, string> := map[];
    for i := 0 to |namespaces|
      invariant forall j | 0 <= j < i :: namespaces[j] in recorded
      invariant found == ParentsOf(namespaces[..i], recorded)
    {
      assert namespaces[i] in namespaces;
      if namespaces[i] !in recorded {
        return Err("Config map was not found");
      }
      found := found[namespaces[i] := recorded[namespaces[i]]];
      assert namespaces[..i + 1] == namespaces[..i] + [namespaces[i]];
    }
    assert namespaces[..|namespaces|] == namespaces;
    result := Ok(found);
  }

  function ParentsOf(namespaces: seq<string>, recorded: map<string, string>): map<string, string> {
    map namespace | namespace in namespaces && namespace in recorded :: recorded[namespace]
  }

  /** What a tenant's namespaces other than the root must look like for its hierarchy to be built. */
  ghost predicate HasHierarchy(root: string, rest: seq<string>, recorded: map<string, string>) {
    || |rest| <= 1
    || ((forall namespace <- rest :: namespace in recorded)
         && exists path :: IsChain(root, path, ParentsOf(rest, recorded)))
  }

  /** More than one namespace is listed, and one has no configmap or some order of the configmaps fails. */
  ghost predicate HierarchyCanFail(root: string, rest: seq<string>, recorded: map<string, string>) {
    |rest| > 1 && ((exists namespace <- rest :: namespace !in recorded) || CanFail(root, ParentsOf(rest, recorded)))
  }

  ghost predicate IsHierarchy(root: string, rest: seq<string>, recorded: map<string, string>, path: seq<string>) {
    path != [] && path[0] == root && if |rest| <= 1 then path[1..] == rest
        else IsChain(root, path[1..], ParentsOf(rest, recorded))
  }

  method BuildHierarchy(rest: seq<string>, root: string, recorded: map<string, string>)
    returns (result: Result<CompositeNamespace>)
    ensures root !in rest ==> (result.Ok? <==> HasHierarchy(root, rest, recorded))
    ensures OneChild(root, ParentsOf(rest, recorded)) ==> (result.Ok? <==> HasHierarchy(root, rest, recorded))
    ensures result.Err? ==> HierarchyCanFail(root, rest, recorded)
    ensures result.Ok? ==> IsHierarchy(root, rest, recorded, Path(result.value))
  {
    if |rest| == 0 {
      return Ok(CompositeNamespace(root, None));
    }
    if |rest| == 1 {
      return Ok(CompositeNamespace(root, Some(CompositeNamespace(rest[0], None))));
    }
    var parents := GetConfigMapsForNamespaces(rest, recorded);
    if parents.Err? {
      return Err(parents.message);
    }
    var configmaps := new Configmaps(parents.value);
    var child := ResolveChildForNamespace(root, configmaps);
    if child.Err? {
      return child;
    }
    result := Ok(CompositeNamespace(root, Some(child.value)));
    assert Path(result.value)[1..] == Path(child.value);
  }

  /** The list the loop goes on with. */
  function Dropped(items: seq<string>, root: string): seq<string> {
    var (now, length) := DropFrom(items, 0, |items|, root); now[..length]
  }

  /**
   * The hierarchy of a tenant's namespaces below `root`. For lists the root can be removed from cleanly it exists
   * exactly when at most one other namespace is listed or their configmaps form one chain, and then it is that chain.
   * From other lists a root stays in: the same holds of what the loop leaves, unless the root then has two children.
   */
  method GetCompositeNamespaceForTenant(namespaces: array<string>, root: string, recorded: map<string, string>)
    returns (result: Result<CompositeNamespace>)
    modifies namespaces
    ensures RemovesCleanly(old(namespaces[..]), root) ==>
              (result.Ok? <==> HasHierarchy(root, Without(old(namespaces[..]), root), recorded))
    ensures RemovesCleanly(old(namespaces[..]), root) && result.Ok? ==>
              IsHierarchy(root, Without(old(namespaces[..]), root), recorded, Path(result.value))
    ensures namespaces[..] == DropFrom(old(namespaces[..]), 0, namespaces.Length, root).0
    ensures result.Ok? ==> IsHierarchy(root, Dropped(old(namespaces[..]), root), recorded, Path(result.value))
    ensures OneChild(root, ParentsOf(Dropped(old(namespaces[..]), root), recorded)) ==>
              (result.Ok? <==> HasHierarchy(root, Dropped(old(namespaces[..]), root), recorded))
    ensures result.Err? ==> HierarchyCanFail(root, Dropped(old(namespaces[..]), root), recorded)
  {
    ghost var before := namespaces[..];
    var length := DropNamespace(namespaces, root);
    DropIsRightIff(before, root);
    WithoutMeans(before, root);
    result := BuildHierarchy(namespaces[..length], root, recorded);
  }

  // ---------- searching a service along a chain ----------

  /** Children first; a namespace whose services cannot be read is an error. */
  function FindServiceInNamespaces(service: string, c: CompositeNamespace,
                                   services: map<string, set<string>>): Result<string> {
    var below := if c.child.Some? then FindServiceInNamespaces(service, c.child.value, services) else Ok("");
    if below.Err? || below.value != "" then below
    else if c.namespace !in services then Err("services were not found in cache")
    else if service in services[c.namespace] then Ok(c.namespace) else Ok("")
  }

  /** The namespace ends the search: it cannot be read, or it has a name and holds the service. */
  predicate Decides(namespace: string, service: string, services: map<string, set<string>>) {
    namespace !in services || (namespace != "" && service in services[namespace])
  }

  /** The i-th namespace of the path decides, and none below it does. */
  predicate DecidesLast(path: seq<string>, i: nat, service: string, services: map<string, set<string>>) {
    && i < |path| && Decides(path[i], service, services)
    && forall j | i < j < |path| :: !Decides(path[j], service, services)
  }

  lemma DecidesLastBelow(path: seq<string>, i: nat, service: string, services: map<string, set<string>>)
    requires DecidesLast(path, i, service, services)
    ensures i > 0 ==> DecidesLast(path[1..], i - 1, service, services)
    ensures i == 0 ==> forall namespace <- path[1..] :: !Decides(namespace, service, services)
  {
    var below := path[1..];
    assert forall j | 0 <= j < |below| :: below[j] == path[j + 1];
  }

  /** The deepest deciding namespace is the answer; "" means that no namespace of the chain decides. */
  lemma {:induction false} FindsDeepest(service: string, c: CompositeNamespace, services: map<string, set<string>>,
                                        i: nat)
    requires DecidesLast(Path(c), i, service, services)
    ensures FindServiceInNamespaces(service, c, services).Ok? <==> Path(c)[i] in services
    ensures Path(c)[i] in services ==> FindServiceInNamespaces(service, c, services).value == Path(c)[i]
  {
    if c.child.Some? {
      var below := c.child.value;
      DecidesLastBelow(Path(c), i, service, services);
      assert Path(c)[1..] == Path(below);
      if i > 0 { FindsDeepest(service, below, services, i - 1); } else { FindsNothing(service, below, services); }
    }
  }

  lemma {:induction false} FindsNothing(service: string, c: CompositeNamespace, services: map<string, set<string>>)
    requires forall namespace <- Path(c) :: !Decides(namespace, service, services)
    ensures FindServiceInNamespaces(service, c, services) == Ok("")
  {
    assert Path(c)[0] == c.namespace;
    assert c.namespace in Path(c) && !Decides(c.namespace, service, services);
    if c.child.Some? {
      var below := c.child.value;
      forall namespace | namespace in Path(below) ensures !Decides(namespace, service, services) {
        assert namespace in Path(c);
      }
      FindsNothing(service, below, services);
    }
  }
}
