/** The search for a service name that no existing service has. Text is one character per byte. */
module ServiceName {
  import opened Strings

  const NAME_MAX_LENGTH := 63
  const TENANT_PREFIX: string := "tenant-"
  const RANDOM_LIMIT: nat := 0x8000_0000_0000_0000

  function Truncate(name: string, length: nat): string { if |name| > length then name[..length] else name }

  function BaseName(tenantName: string): string { Truncate(TENANT_PREFIX + tenantName, NAME_MAX_LENGTH) }

  /** A fresh start from the number `random`. */
  function RandomName(tenantName: string, random: nat): string {
    Truncate(Truncate(tenantName, NAME_MAX_LENGTH / 2) + Itoa(random), NAME_MAX_LENGTH)
  }

  function Ones(k: nat): (ones: string)
    ensures |ones| == k
  {
    seq(k, i => '1')
  }

  /** The names the search starts from: the base name, then one per random number. */
  function Head(tenantName: string, random: seq<nat>, j: nat): string
    requires j <= |random|
  {
    if j == 0 then BaseName(tenantName) else RandomName(tenantName, random[j - 1])
  }

  /** Every extension of `head` up to the length limit is taken. */
  ghost predicate AllTaken(existing: set<string>, head: string) {
    forall k: nat :: |head| + k <= NAME_MAX_LENGTH ==> head + Ones(k) in existing
  }

  ghost predicate FirstFree(existing: set<string>, head: string, k: nat) {
    && |head| + k <= NAME_MAX_LENGTH && head + Ones(k) !in existing
    && forall m: nat :: m < k ==> head + Ones(m) in existing
  }

  /** `name` is the first free candidate, reached after `used` random numbers. */
  ghost predicate Found(tenantName: string, existing: set<string>, random: seq<nat>, used: nat, name: string) {
    && used <= |random|
    && (forall j: nat :: j < used ==> AllTaken(existing, Head(tenantName, random, j)))
    && exists k: nat :: FirstFree(existing, Head(tenantName, random, used), k)
         && name == Head(tenantName, random, used) + Ones(k)
  }

  lemma HeadLength(tenantName: string, random: seq<nat>, j: nat)
    requires j <= |random| && forall r <- random :: r < RANDOM_LIMIT
    ensures |Head(tenantName, random, j)| <= NAME_MAX_LENGTH
    ensures j > 0 ==> |Head(tenantName, random, j)| <= 50
  {
    if j > 0 {
      assert random[j - 1] in random;
      RandomNameIsShort(tenantName, random[j - 1]);
    }
  }

  /** The search starts with the prefix and the tenant's name, cut to 63 bytes. */
  lemma BaseNameIs(tenantName: string)
    ensures var name := "tenant-" + tenantName;
            BaseName(tenantName) == if |name| <= 63 then name else name[..63]
  {
  }

  /** 31 bytes of the tenant's name and 19 digits: the limit of 63 bytes is never reached by a fallback name. */
  lemma RandomNameIsShort(tenantName: string, random: nat)
    requires random < RANDOM_LIMIT
    ensures |RandomName(tenantName, random)| <= 50
    ensures RandomName(tenantName, random) ==
              (if |tenantName| <= 31 then tenantName else tenantName[..31]) + Itoa(random)
  {
    assert Pow10(19) == 10000000000000000000 by { PowersOfTen(); }
    ItoaLength(random, 19);
  }

  lemma PowersOfTen()
    ensures Pow10(19) == 10000000000000000000
  {
    assert Pow10(5) == 100000;
    assert Pow10(10) == 10000000000;
    assert Pow10(15) == 1000000000000000;
  }

  /**
   * The search has come to the k-th extension of the head it reached after `used` random numbers; all before are
   * taken.
   */
  ghost predicate Reached(tenantName: string, existing: set<string>, random: seq<nat>, used: nat, k: nat,
                          name: string) {
    && used <= |random|
    && name == Head(tenantName, random, used) + Ones(k) && |name| <= NAME_MAX_LENGTH
    && (forall j: nat :: j < used ==> AllTaken(existing, Head(tenantName, random, j)))
    && (forall m: nat :: m < k ==> Head(tenantName, random, used) + Ones(m) in existing)
  }

  lemma ReachLonger(tenantName: string, existing: set<string>, random: seq<nat>, used: nat, k: nat, name: string)
    requires Reached(tenantName, existing, random, used, k, name) && name in existing && |name| < NAME_MAX_LENGTH
    ensures Reached(tenantName, existing, random, used, k + 1, name + Itoa(1))
  {
    assert Itoa(1) == "1" && Ones(k) + "1" == Ones(k + 1);
    assert name + "1" == Head(tenantName, random, used) + (Ones(k) + "1");
  }

  lemma LadderTaken(tenantName: string, existing: set<string>, random: seq<nat>, used: nat, k: nat, name: string)
    requires Reached(tenantName, existing, random, used, k, name) && name in existing && |name| == NAME_MAX_LENGTH
    ensures AllTaken(existing, Head(tenantName, random, used))
  {
  }

  lemma ReachFallback(tenantName: string, existing: set<string>, random: seq<nat>, used: nat, k: nat, name: string)
    requires Reached(tenantName, existing, random, used, k, name) && name in existing && |name| == NAME_MAX_LENGTH
    requires used < |random| && forall r <- random :: r < RANDOM_LIMIT
    ensures Reached(tenantName, existing, random, used + 1, 0, RandomName(tenantName, random[used]))
  {
    LadderTaken(tenantName, existing, random, used, k, name);
    HeadLength(tenantName, random, used + 1);
    assert RandomName(tenantName, random[used]) + Ones(0) == RandomName(tenantName, random[used]);
  }

  /**
   * `random` is the beginning of the random numbers the run would draw: with none of its candidates free the answer is
   * nothing, and the run goes on beyond them.
   */
  method GenerateUniqueServiceName(tenantName: string, existing: set<string>, random: seq<nat>)
    returns (name: Option<string>, used: nat)
    requires forall r <- random :: r < RANDOM_LIMIT
    ensures used <= |random|
    ensures name.Some? ==> Found(tenantName, existing, random, used, name.value)
    ensures name.None? ==> forall j: nat :: j <= |random| ==> AllTaken(existing, Head(tenantName, random, j))
  {
    var optionalPart := tenantName;
    var serviceName := Truncate(TENANT_PREFIX + optionalPart, NAME_MAX_LENGTH);
    used := 0;
    ghost var k := 0;
    assert serviceName == Head(tenantName, random, 0) + Ones(0);
    var taken := serviceName in existing;
    while taken
      invariant |tenantName| <= NAME_MAX_LENGTH / 2 ==> optionalPart == tenantName
      invariant taken == (serviceName in existing)
      invariant Reached(tenantName, existing, random, used, k, serviceName)
      decreases |random| - used, NAME_MAX_LENGTH - |serviceName|
    {
      var counter := 1;
      if |serviceName + Itoa(counter)| <= NAME_MAX_LENGTH {
        ReachLonger(tenantName, existing, random, used, k, serviceName);
        serviceName := serviceName + Itoa(counter);
        k := k + 1;
      } else {
        LadderTaken(tenantName, existing, random, used, k, serviceName);
        if used == |random| { return None, used; }
        if |tenantName| > NAME_MAX_LENGTH / 2 { optionalPart := tenantName[..NAME_MAX_LENGTH / 2]; }
        ReachFallback(tenantName, existing, random, used, k, serviceName);
        serviceName := Truncate(optionalPart + Itoa(random[used]), NAME_MAX_LENGTH);
        used, k := used + 1, 0;
      }
      taken := serviceName in existing;
    }
    name := Some(serviceName);
    assert FirstFree(existing, Head(tenantName, random, used), k);
  }

  /** The name fits, is free, and is the base name or a fallback of at most 50 bytes followed by ones. */
  lemma FoundIsUnique(tenantName: string, existing: set<string>, random: seq<nat>, used: nat, name: string)
    requires forall r <- random :: r < RANDOM_LIMIT
    requires Found(tenantName, existing, random, used, name)
    ensures |name| <= NAME_MAX_LENGTH && name !in existing
    ensures Head(tenantName, random, used) <= name && (used > 0 ==> |Head(tenantName, random, used)| <= 50)
  {
    HeadLength(tenantName, random, used);
  }

  // ---------- pigeonhole ----------

  lemma {:induction false} ExtensionsAreMany(head: string, existing: set<string>, n: nat)
    requires forall m: nat :: m < n ==> head + Ones(m) in existing
    ensures |existing| >= n
    decreases n
  {
    if n > 0 {
      var longest := head + Ones(n - 1);
      assert n - 1 < n && longest in existing;
      forall m: nat | m < n - 1 ensures head + Ones(m) in existing - {longest} {
        assert |head + Ones(m)| != |longest|;
      }
      ExtensionsAreMany(head, existing - {longest}, n - 1);
    }
  }

  /** The search uses randomness exactly when every extension of the base name is taken. */
  lemma RandomnessIffAllTaken(tenantName: string, existing: set<string>, random: seq<nat>, used: nat, name: string)
    requires Found(tenantName, existing, random, used, name)
    ensures used > 0 <==> AllTaken(existing, BaseName(tenantName))
  {
    assert Head(tenantName, random, 0) == BaseName(tenantName);
  }

  /**
   * With fewer services than extensions the search ends without randomness, after at most one extension per service.
   */
  lemma FewServicesNeedNoRandomness(tenantName: string, existing: set<string>, random: seq<nat>, used: nat,
                                    name: string)
    requires |existing| < NAME_MAX_LENGTH + 1 - |BaseName(tenantName)|
    ensures !AllTaken(existing, BaseName(tenantName))
    ensures Found(tenantName, existing, random, used, name) ==>
              used == 0 && |name| - |BaseName(tenantName)| <= |existing|
              && name == BaseName(tenantName) + Ones(|name| - |BaseName(tenantName)|)
  {
    var base := BaseName(tenantName);
    if AllTaken(existing, base) {
      forall m: nat | m < 64 - |base| ensures base + Ones(m) in existing { assert |base| + m <= NAME_MAX_LENGTH; }
      ExtensionsAreMany(base, existing, 64 - |base|);
      assert false;
    }
    if Found(tenantName, existing, random, used, name) {
      RandomnessIffAllTaken(tenantName, existing, random, used, name);
      var k: nat :| FirstFree(existing, Head(tenantName, random, used), k)
          && name == Head(tenantName, random, used) + Ones(k);
      ExtensionsAreMany(base, existing, k);
    }
  }

  // ---------- fresh random numbers end the search ----------

  lemma RandomNamesDiffer(tenantName: string, a: nat, b: nat)
    requires a < RANDOM_LIMIT && b < RANDOM_LIMIT && a != b
    ensures RandomName(tenantName, a) != RandomName(tenantName, b)
  {
    RandomNameIsShort(tenantName, a);
    RandomNameIsShort(tenantName, b);
    ScanOfItoa(a);
    ScanOfItoa(b);
    var prefix := Truncate(tenantName, 31);
    assert (prefix + Itoa(a))[|prefix|..] == Itoa(a) && (prefix + Itoa(b))[|prefix|..] == Itoa(b);
  }

  lemma {:induction false} TakenFallbacksAreMany(tenantName: string, existing: set<string>, random: seq<nat>)
    requires forall r <- random :: r < RANDOM_LIMIT
    requires forall i, j | 0 <= i < j < |random| :: random[i] != random[j]
    requires forall r <- random :: RandomName(tenantName, r) in existing
    ensures |existing| >= |random|
  {
    if random != [] {
      var rest, last := random[..|random| - 1], random[|random| - 1];
      forall r | r in rest ensures RandomName(tenantName, r) in existing - {RandomName(tenantName, last)} {
        assert r in random && last in random;
        RandomNamesDiffer(tenantName, r, last);
      }
      assert last in random && forall r <- rest :: r in random;
      TakenFallbacksAreMany(tenantName, existing - {RandomName(tenantName, last)}, rest);
    }
  }

  /** Drawing more different random numbers than there are services always finds a name. */
  lemma DistinctNumbersEndTheSearch(tenantName: string, existing: set<string>, random: seq<nat>)
    requires forall r <- random :: r < RANDOM_LIMIT
    requires forall i, j | 0 <= i < j < |random| :: random[i] != random[j]
    requires |random| > |existing|
    ensures exists j: nat :: j <= |random| && !AllTaken(existing, Head(tenantName, random, j))
  {
    if forall j: nat :: j <= |random| ==> AllTaken(existing, Head(tenantName, random, j)) {
      forall r | r in random ensures RandomName(tenantName, r) in existing {
        var j: nat :| j < |random| && random[j] == r;
        HeadLength(tenantName, random, j + 1);
        assert AllTaken(existing, Head(tenantName, random, j + 1));
        assert RandomName(tenantName, r) + Ones(0) == RandomName(tenantName, r);
      }
      TakenFallbacksAreMany(tenantName, existing, random);
      assert false;
    }
  }
}
