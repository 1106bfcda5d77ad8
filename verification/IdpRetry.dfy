/** The client that posts redirect URIs to the identity provider and retries in the background. */
module IdpRetry {
  import opened Strings

  datatype IdpTenant = IdpTenant(id: string, urls: seq<string>)
  datatype UriRequest = UriRequest(namespace: string, tenants: seq<IdpTenant>, common: seq<string>)

  // ---------- building the request ----------

  function NonEmptyValues(values: seq<string>): seq<string> {
    if values == [] then []
    else NonEmptyValues(values[..|values| - 1]) + (if values[|values| - 1] != "" then [values[|values| - 1]] else [])
  }

  /**
   * What is kept of two lists together is what is kept of each, in order; a single value is kept unless it is empty.
   */
  lemma {:induction false} KeptInOrder(a: seq<string>, b: seq<string>)
    ensures NonEmptyValues(a + b) == NonEmptyValues(a) + NonEmptyValues(b)
    ensures forall value :: NonEmptyValues([value]) == if value == "" then [] else [value]
  {
    if b == [] {
      assert a + b == a;
    } else {
      assert (a + b)[..|a + b| - 1] == a + b[..|b| - 1];
      KeptInOrder(a, b[..|b| - 1]);
    }
  }

  method NotNullSliceWithNonEmptyValues(values: seq<string>) returns (kept: seq<string>)
    ensures kept == NonEmptyValues(values)
  {
    kept := [];
    for i := 0 to |values|
      invariant kept == NonEmptyValues(values[..i])
    {
      if values[i] != "" { kept := kept + [values[i]]; }
      assert values[..i + 1][..i] == values[..i];
    }
    assert values[..|values|] == values;
  }

  /** `tenants` has one entry per key of the map, in some order. */
  ghost predicate ListsTenants(tenants: seq<IdpTenant>, tenantURIs: map<string, seq<string>>) {
    && (forall t :: t in tenants <==> t.id in tenantURIs && t.urls == NonEmptyValues(tenantURIs[t.id]))
    && (forall i, j | 0 <= i < j < |tenants| :: tenants[i] != tenants[j])
  }

  method BuildUriRequest(namespace: string, tenantURIs: map<string, seq<string>>, commonURIs: seq<string>)
    returns (request: UriRequest)
    ensures request.namespace == namespace && request.common == NonEmptyValues(commonURIs)
    ensures ListsTenants(request.tenants, tenantURIs)
  {
    var common := NotNullSliceWithNonEmptyValues(commonURIs);
    var tenants: seq<IdpTenant> := [];
    var ids := tenantURIs.Keys;
    while ids != {}
      invariant ids <= tenantURIs.Keys
      invariant forall t :: t in tenants <==>
                  t.id in tenantURIs && t.id !in ids && t.urls == NonEmptyValues(tenantURIs[t.id])
      invariant forall i, j | 0 <= i < j < |tenants| :: tenants[i] != tenants[j]
      decreases ids
    {
      var id :| id in ids;
      var urls := NotNullSliceWithNonEmptyValues(tenantURIs[id]);
      assert forall i | 0 <= i < |tenants| :: tenants[i] in tenants;
      tenants := tenants + [IdpTenant(id, urls)];
      ids := ids - {id};
    }
    request := UriRequest(namespace, tenants, common);
  }

  // ---------- the client and its senders ----------

  datatype SenderPhase = Spawned | Attempting | Waiting | Finished

  /** `late` counts the attempts the sender began after it was cancelled. */
  datatype Sender = Sender(request: UriRequest, phase: SenderPhase, cancelled: bool, late: nat)

  /** `cancel` is the sender the stored cancel function belongs to; `accepted` is the last request that started one. */
  datatype Client = Client(hash: nat, cancel: Option<nat>, senders: seq<Sender>, accepted: Option<UriRequest>)

  const NEW_CLIENT := Client(0, None, [], None)

  type Hash = UriRequest -> Option<nat>

  predicate StartsSender(c: Client, hash: Option<nat>) { hash.Some? && hash.value != c.hash }

  /** A request whose hash differs from the stored one cancels the sender of the one before and starts its own. */
  function Post(c: Client, hash: Option<nat>, request: UriRequest): Client {
    if !StartsSender(c, hash) then c
    else
      var senders := if c.cancel.Some? && c.cancel.value < |c.senders|
                     then c.senders[c.cancel.value := c.senders[c.cancel.value].(cancelled := true)] else c.senders;
      Client(hash.value, Some(|senders|), senders + [Sender(request, Spawned, false, 0)], Some(request))
  }

  function ResetHash(c: Client): Client { c.(hash := 0) }

  class ClientWithRetry {
    const hashOf: Hash
    var hash: nat
    var cancel: Option<nat>
    var senders: seq<Sender>
    ghost var accepted: Option<UriRequest>

    constructor (hashOf: Hash)
      ensures this.hashOf == hashOf && State() == NEW_CLIENT
    {
      this.hashOf, hash, cancel, senders, accepted := hashOf, 0, None, [], None;
    }

    ghost function State(): Client reads this { Client(hash, cancel, senders, accepted) }

    method PostURI(request: UriRequest)
      modifies this
      ensures State() == Post(old(State()), hashOf(request), request)
    {
      var h := hashOf(request);
      if h.None? { return; }
      if h.value != hash {
        hash := h.value;
        if cancel.Some? && cancel.value < |senders| {
          senders := senders[cancel.value := senders[cancel.value].(cancelled := true)];
        }
        cancel := Some(|senders|);
        senders := senders + [Sender(request, Spawned, false, 0)];
        accepted := Some(request);
      }
    }

    method Reset()
      modifies this
      ensures State() == ResetHash(old(State()))
    {
      hash := 0;
    }
  }

  // ---------- runs ----------

  datatype Step =
    | PostStep(request: UriRequest)
    | ResetStep
    | Begin(i: nat)
    | Succeed(i: nat)
    | Fail(i: nat)
    | TimerFires(i: nat)
    | SeesCancel(i: nat)

  function Started(s: Sender): Sender { s.(phase := Attempting, late := if s.cancelled then s.late + 1 else s.late) }

  /** After a failed attempt a cancelled sender finds only its cancellation ready, any other one waits for its timer. */
  ghost predicate Next(hashOf: Hash, c: Client, step: Step, c': Client) {
    match step
    case PostStep(request) => c' == Post(c, hashOf(request), request)
    case ResetStep => c' == ResetHash(c)
    case Begin(i) => i < |c.senders| && c.senders[i].phase == Spawned
        && c' == c.(senders := c.senders[i := Started(c.senders[i])])
    case Succeed(i) => i < |c.senders| && c.senders[i].phase == Attempting
        && c' == c.(senders := c.senders[i := c.senders[i].(phase := Finished)])
    case Fail(i) =>
      i < |c.senders| && c.senders[i].phase == Attempting &&
      c' == c.(senders := c.senders[i := c.senders[i].(phase := if c.senders[i].cancelled then Finished else Waiting)])
    case TimerFires(i) => i < |c.senders| && c.senders[i].phase == Waiting
        && c' == c.(senders := c.senders[i := Started(c.senders[i])])
    case SeesCancel(i) =>
      i < |c.senders| && c.senders[i].phase == Waiting && c.senders[i].cancelled &&
      c' == c.(senders := c.senders[i := c.senders[i].(phase := Finished)])
  }

  ghost predicate Run(hashOf: Hash, states: seq<Client>, steps: seq<Step>) {
    && |states| == |steps| + 1 && states[0] == NEW_CLIENT
    && forall i | 0 <= i < |steps| :: Next(hashOf, states[i], steps[i], states[i + 1])
  }

  ghost predicate SenderInv(s: Sender) {
    && (!s.cancelled ==> s.late == 0)
    && s.late <= 1
    && (s.phase == Spawned || s.phase == Waiting ==> s.late == 0)
  }

  ghost predicate Inv(c: Client) {
    && (forall i | 0 <= i < |c.senders| :: SenderInv(c.senders[i]))
    && (forall i | 0 <= i < |c.senders| :: c.senders[i].cancelled <==> i < |c.senders| - 1)
    && (c.senders == [] <==> c.cancel == None) && (c.senders == [] <==> c.accepted == None)
    && (c.senders != [] ==> c.cancel == Some(|c.senders| - 1) && c.accepted == Some(c.senders[|c.senders| - 1].request))
  }

  lemma InvKept(hashOf: Hash, c: Client, step: Step, c': Client)
    requires Inv(c) && Next(hashOf, c, step, c')
    ensures Inv(c')
  {
  }

  lemma {:induction false} RunKeepsInv(hashOf: Hash, states: seq<Client>, steps: seq<Step>, i: nat)
    requires Run(hashOf, states, steps) && i < |states|
    ensures Inv(states[i])
  {
    if i > 0 {
      RunKeepsInv(hashOf, states, steps, i - 1);
      InvKept(hashOf, states[i - 1], steps[i - 1], states[i]);
    }
  }

  /** At most one sender is uncancelled, and it carries the most recently accepted request. */
  lemma OneSenderCarriesLatest(hashOf: Hash, states: seq<Client>, steps: seq<Step>, i: nat, a: nat, b: nat)
    requires Run(hashOf, states, steps) && i < |states|
    requires a < |states[i].senders| && b < |states[i].senders| && !states[i].senders[a].cancelled
              && !states[i].senders[b].cancelled
    ensures a == b && states[i].accepted == Some(states[i].senders[a].request)
  {
    RunKeepsInv(hashOf, states, steps, i);
  }

  /** A cancelled sender begins at most one further attempt in all of its life. */
  lemma CancelledSenderStops(hashOf: Hash, states: seq<Client>, steps: seq<Step>, i: nat, a: nat)
    requires Run(hashOf, states, steps) && i < |states| && a < |states[i].senders|
    ensures states[i].senders[a].late <= 1
    ensures states[i].senders[a].cancelled && states[i].senders[a].phase == Attempting
              && states[i].senders[a].late == 1 && i < |steps| ==>
              states[i + 1].senders[a].late == 1 && states[i + 1].senders[a].phase in {Attempting, Finished}
  {
    RunKeepsInv(hashOf, states, steps, i);
    if i < |steps| { assert Next(hashOf, states[i], steps[i], states[i + 1]); }
  }

  /** The step begins an attempt of sender `a` after that sender was cancelled. */
  predicate BeginsLate(c: Client, step: Step, a: nat) {
    a < |c.senders| && c.senders[a].cancelled && (step == Begin(a) || step == TimerFires(a))
  }

  function LateAttempts(states: seq<Client>, steps: seq<Step>, a: nat, i: nat): nat
    requires i <= |steps| && |states| == |steps| + 1
  {
    if i == 0 then 0 else LateAttempts(states, steps, a, i - 1) + (if BeginsLate(states[i - 1], steps[i - 1], a)
        then 1 else 0)
  }

  lemma LateStep(hashOf: Hash, c: Client, step: Step, c': Client, a: nat)
    requires Inv(c) && Next(hashOf, c, step, c') && a < |c'.senders|
    ensures c'.senders[a].late ==
              (if a < |c.senders| then c.senders[a].late else 0) + (if BeginsLate(c, step, a) then 1 else 0)
  {
  }

  lemma {:induction false} LateIsCounted(hashOf: Hash, states: seq<Client>, steps: seq<Step>, a: nat, i: nat)
    requires Run(hashOf, states, steps) && i < |states|
    ensures LateAttempts(states, steps, a, i) == if a < |states[i].senders| then states[i].senders[a].late else 0
  {
    if i > 0 {
      LateIsCounted(hashOf, states, steps, a, i - 1);
      RunKeepsInv(hashOf, states, steps, i - 1);
      SendersGrow(hashOf, states[i - 1], steps[i - 1], states[i]);
      if a < |states[i].senders| { LateStep(hashOf, states[i - 1], steps[i - 1], states[i], a); }
    }
  }

  lemma SendersGrow(hashOf: Hash, c: Client, step: Step, c': Client)
    requires Next(hashOf, c, step, c')
    ensures |c.senders| <= |c'.senders|
  {
  }

  /** Counted over the steps of any run, a sender begins at most one attempt after it was cancelled. */
  lemma AtMostOneLateAttempt(hashOf: Hash, states: seq<Client>, steps: seq<Step>, a: nat)
    requires Run(hashOf, states, steps)
    ensures LateAttempts(states, steps, a, |steps|) <= 1
  {
    LateIsCounted(hashOf, states, steps, a, |steps|);
    RunKeepsInv(hashOf, states, steps, |steps|);
  }

  predicate TouchesHash(step: Step) { step.PostStep? || step.ResetStep? }

  lemma {:induction false} HashStays(hashOf: Hash, states: seq<Client>, steps: seq<Step>, a: nat, b: nat)
    requires Run(hashOf, states, steps) && a <= b < |states|
    requires forall l | a <= l < b :: !TouchesHash(steps[l])
    ensures states[b].hash == states[a].hash && |states[b].senders| == |states[a].senders|
              && states[b].accepted == states[a].accepted
  {
    if a < b {
      HashStays(hashOf, states, steps, a, b - 1);
      assert Next(hashOf, states[b - 1], steps[b - 1], states[b]);
    }
  }

  /**
   * Two requests of equal hash, posted one after the other with no Reset between, start at most one sender: the
   * second starts none.
   */
  lemma EqualHashStartsNoSecondSender(hashOf: Hash, states: seq<Client>, steps: seq<Step>, first: nat, second: nat)
    requires Run(hashOf, states, steps) && first < second < |steps|
    requires steps[first].PostStep? && steps[second].PostStep?
    requires hashOf(steps[first].request).Some? && hashOf(steps[first].request) == hashOf(steps[second].request)
    requires forall l | first < l < second :: !TouchesHash(steps[l])
    ensures states[second + 1] == states[second]
  {
    assert Next(hashOf, states[first], steps[first], states[first + 1]);
    HashStays(hashOf, states, steps, first + 1, second);
    assert Next(hashOf, states[second], steps[second], states[second + 1]);
  }

  /** The hash treats the tenant list as a set. */
  ghost predicate OrderInsensitive(hashOf: Hash) {
    forall a: UriRequest, b: UriRequest | a.namespace == b.namespace && a.common == b.common
        && multiset(a.tenants) == multiset(b.tenants) :: hashOf(a) == hashOf(b)
  }

  lemma {:induction false} SameMembersSameMultiset(a: seq<IdpTenant>, b: seq<IdpTenant>)
    requires forall t :: t in a <==> t in b
    requires forall i, j | 0 <= i < j < |a| :: a[i] != a[j]
    requires forall i, j | 0 <= i < j < |b| :: b[i] != b[j]
    ensures multiset(a) == multiset(b)
  {
    forall t ensures multiset(a)[t] == multiset(b)[t] {
      CountOnce(a, t);
      CountOnce(b, t);
    }
  }

  lemma {:induction false} CountOnce(a: seq<IdpTenant>, t: IdpTenant)
    requires forall i, j | 0 <= i < j < |a| :: a[i] != a[j]
    ensures multiset(a)[t] == if t in a then 1 else 0
  {
    if a != [] {
      CountOnce(a[1..], t);
      assert a == [a[0]] + a[1..];
    }
  }

  /** Whatever order the tenant map is ranged over in, rebuilding a request from it never starts a second sender. */
  lemma MapOrderNeverResends(hashOf: Hash, c: Client, tenantURIs: map<string, seq<string>>, a: UriRequest,
                             b: UriRequest)
    requires OrderInsensitive(hashOf)
    requires a.namespace == b.namespace && a.common == b.common
    requires ListsTenants(a.tenants, tenantURIs) && ListsTenants(b.tenants, tenantURIs)
    ensures hashOf(a).Some? ==> !StartsSender(Post(c, hashOf(a), a), hashOf(b))
  {
    forall t ensures t in a.tenants <==> t in b.tenants {}
    SameMembersSameMultiset(a.tenants, b.tenants);
  }

  /** Nothing is stored yet when step `i` comes: it is the first of the run, or the one before it is a Reset. */
  ghost predicate NothingStored(steps: seq<Step>, i: nat) {
    i == 0 || (i <= |steps| && steps[i - 1].ResetStep?)
  }

  /**
   * The first request at the start or after a Reset should always be sent. In every run it starts a sender if and only
   * if its hash is not 0, because 0 is also what the client stores for nothing; otherwise it changes nothing at all.
   */
  lemma FirstRequestIsSentIff(hashOf: Hash, states: seq<Client>, steps: seq<Step>, from: nat, post: nat)
    requires Run(hashOf, states, steps) && from <= post < |steps| && NothingStored(steps, from)
    requires steps[post].PostStep? && forall l | from <= l < post :: !TouchesHash(steps[l])
    ensures var hash, request := hashOf(steps[post].request), steps[post].request;
            if hash.Some? && hash.value != 0
            then |states[post + 1].senders| == |states[post].senders| + 1
                 && states[post + 1].senders[|states[post].senders|] == Sender(request, Spawned, false, 0)
                 && states[post + 1].accepted == Some(request)
            else states[post + 1] == states[post]
  {
    if from > 0 { assert Next(hashOf, states[from - 1], steps[from - 1], states[from]); }
    HashStays(hashOf, states, steps, from, post);
    assert Next(hashOf, states[post], steps[post], states[post + 1]);
  }
}
