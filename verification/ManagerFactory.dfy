/**
 manager_factory.go: resource managers cached per account, region and role, under a lock.

 The two lock-protected sections of `ManagerFor` are atomic; between them any other call may run.
 */
module ManagerFactory {
  /** What a caller asks for; a manager is what was built for such a caller. */
  datatype Caller = Caller(account: string, region: string, roleARN: string)

  datatype Manager = Manager(builtFor: Caller)

  function CacheKey(c: Caller): string {
    c.account + ("/" + (c.region + ("/" + c.roleARN)))
  }

  predicate NoSlash(s: string) {
    '/' !in s
  }

  /** The key tells any two of these callers apart. */
  ghost predicate KeyTellsApart(allowed: iset<Caller>) {
    forall c <- allowed, d <- allowed :: CacheKey(c) == CacheKey(d) ==> c == d
  }

  /** Every cached manager was built for an allowed caller with its key. */
  ghost predicate CacheIsValid(cache: map<string, Manager>, allowed: iset<Caller>) {
    forall k <- cache :: cache[k].builtFor in allowed && CacheKey(cache[k].builtFor) == k
  }

  class ResourceManagerFactory {
    var rmCache: map<string, Manager>

    constructor ()
      ensures rmCache == map[]
    {
      rmCache := map[];
    }

    /** Any number of other calls: they only add managers or replace them by their like. */
    method OtherCalls(ghost allowed: iset<Caller>, others: seq<Caller>)
      requires CacheIsValid(rmCache, allowed)
      requires forall c <- others :: c in allowed
      modifies this
      ensures CacheIsValid(rmCache, allowed)
      ensures old(rmCache.Keys) <= rmCache.Keys
    {
      for i := 0 to |others|
        invariant CacheIsValid(rmCache, allowed)
        invariant old(rmCache.Keys) <= rmCache.Keys
      {
        rmCache := rmCache[CacheKey(others[i]) := Manager(others[i])];
      }
    }

    /** `others` are the calls that complete between the two locked sections. */
    method ManagerFor(caller: Caller, others: seq<Caller>, ghost allowed: iset<Caller>) returns (rm: Manager)
      requires KeyTellsApart(allowed) && caller in allowed
      requires forall c <- others :: c in allowed
      requires CacheIsValid(rmCache, allowed)
      modifies this
      ensures rm.builtFor == caller
      ensures CacheIsValid(rmCache, allowed)
      ensures old(rmCache.Keys) <= rmCache.Keys
      ensures CacheKey(caller) in rmCache && rmCache[CacheKey(caller)] == rm
    {
      var rmId := CacheKey(caller);
      var found := rmId in rmCache;
      if found {
        return rmCache[rmId];
      }
      OtherCalls(allowed, others);
      rm := Manager(caller);
      rmCache := rmCache[rmId := rm];
    }
  }

  // ---------- All interleavings ----------

  /** A call's progress: not yet looked, looked in vain, or done. */
  datatype Call = Begun(caller: Caller) | NotFound(caller: Caller) | Returned(caller: Caller, manager: Manager)

  datatype Factory = Factory(cache: map<string, Manager>, calls: map<nat, Call>)

  ghost predicate Begins(f: Factory, g: Factory, n: nat, c: Caller) {
    n !in f.calls && g == f.(calls := f.calls[n := Begun(c)])
  }

  /** The section under the read lock. */
  ghost predicate Looks(f: Factory, g: Factory, n: nat) {
    && n in f.calls && f.calls[n].Begun?
    && var c := f.calls[n].caller;
    && g == f.(calls := f.calls[n :=
         if CacheKey(c) in f.cache then Returned(c, f.cache[CacheKey(c)]) else NotFound(c)])
  }

  /** The section under the write lock; it does not look again. */
  ghost predicate Builds(f: Factory, g: Factory, n: nat) {
    && n in f.calls && f.calls[n].NotFound?
    && var c := f.calls[n].caller;
    && g == Factory(f.cache[CacheKey(c) := Manager(c)], f.calls[n := Returned(c, Manager(c))])
  }

  ghost predicate Step(f: Factory, g: Factory, allowed: iset<Caller>) {
    || (exists n: nat, c: Caller :: c in allowed && Begins(f, g, n, c))
    || (exists n: nat :: Looks(f, g, n))
    || (exists n: nat :: Builds(f, g, n))
  }

  ghost predicate Run(fs: seq<Factory>, allowed: iset<Caller>) {
    && |fs| > 0
    && fs[0] == Factory(map[], map[])
    && forall i :: 0 <= i < |fs| - 1 ==> Step(fs[i], fs[i + 1], allowed)
  }

  ghost predicate Sound(f: Factory, allowed: iset<Caller>) {
    && CacheIsValid(f.cache, allowed)
    && (forall n <- f.calls :: f.calls[n].caller in allowed)
    && (forall n <- f.calls :: f.calls[n].Returned? ==>
         f.calls[n].manager.builtFor in allowed && CacheKey(f.calls[n].manager.builtFor) == CacheKey(f.calls[n].caller))
  }

  lemma {:induction false} RunStaysSound(fs: seq<Factory>, allowed: iset<Caller>, i: nat)
    requires Run(fs, allowed) && i < |fs|
    ensures Sound(fs[i], allowed)
    ensures i > 0 ==> fs[i - 1].cache.Keys <= fs[i].cache.Keys
  {
    if i > 0 {
      RunStaysSound(fs, allowed, i - 1);
      assert Step(fs[i - 1], fs[i - 1 + 1], allowed);
    }
  }

  // ---------- Main results ----------

  ghost predicate ReturnsOwnManagers(f: Factory) {
    forall n <- f.calls :: f.calls[n].Returned? ==> f.calls[n].manager.builtFor == f.calls[n].caller
  }

  /** Every call in every interleaving gets a manager built for it exactly when the key tells callers apart. */
  lemma EveryCallerGetsItsOwnManager(allowed: iset<Caller>)
    ensures (forall fs: seq<Factory>, i: nat :: Run(fs, allowed) && i < |fs| ==> ReturnsOwnManagers(fs[i]))
      <==> KeyTellsApart(allowed)
  {
    if KeyTellsApart(allowed) {
      forall fs: seq<Factory>, i: nat | Run(fs, allowed) && i < |fs|
        ensures ReturnsOwnManagers(fs[i])
      {
        RunStaysSound(fs, allowed, i);
      }
    } else {
      var c, d :| c in allowed && d in allowed && CacheKey(c) == CacheKey(d) && c != d;
      SharedKeyIsServedWrongly(allowed, c, d);
    }
  }

  lemma SharedKeyIsServedWrongly(allowed: iset<Caller>, c: Caller, d: Caller)
    requires c in allowed && d in allowed && CacheKey(c) == CacheKey(d) && c != d
    ensures exists fs: seq<Factory>, i: nat :: Run(fs, allowed) && i < |fs| && !ReturnsOwnManagers(fs[i])
  {
    var f0 := Factory(map[], map[]);
    var f1 := f0.(calls := map[0 := Begun(c)]);
    var f2 := f1.(calls := map[0 := NotFound(c)]);
    var f3 := Factory(map[CacheKey(c) := Manager(c)], map[0 := Returned(c, Manager(c))]);
    var f4 := f3.(calls := f3.calls[1 := Begun(d)]);
    var f5 := f4.(calls := f4.calls[1 := Returned(d, Manager(c))]);
    assert Begins(f0, f1, 0, c) && Looks(f1, f2, 0) && Builds(f2, f3, 0) && Begins(f3, f4, 1, d) && Looks(f4, f5, 1);
    var fs := [f0, f1, f2, f3, f4, f5];
    assert Step(f0, f1, allowed) && Step(f1, f2, allowed) && Step(f2, f3, allowed);
    assert Step(f3, f4, allowed) && Step(f4, f5, allowed);
    assert Run(fs, allowed) && 1 in fs[5].calls && !ReturnsOwnManagers(fs[5]);
  }

  lemma FirstSlash(a: string, rest: string)
    requires NoSlash(a)
    ensures (a + ("/" + rest))[|a|] == '/'
    ensures forall i :: 0 <= i < |a| ==> (a + ("/" + rest))[i] != '/'
    ensures (a + ("/" + rest))[..|a|] == a
    ensures (a + ("/" + rest))[|a| + 1..] == rest
  {
  }

  lemma SplitAtSlash(a: string, rest: string, b: string, rest': string)
    requires NoSlash(a) && NoSlash(b)
    requires a + ("/" + rest) == b + ("/" + rest')
    ensures a == b && rest == rest'
  {
    FirstSlash(a, rest);
    FirstSlash(b, rest');
    assert |a| == |b|;
  }

  /** Accounts and regions without a slash are told apart, whatever the role ARNs contain. */
  lemma KeyIsInjective(c: Caller, d: Caller)
    requires NoSlash(c.account) && NoSlash(c.region) && NoSlash(d.account) && NoSlash(d.region)
    ensures CacheKey(c) == CacheKey(d) <==> c == d
  {
    if CacheKey(c) == CacheKey(d) {
      SplitAtSlash(c.account, c.region + ("/" + c.roleARN), d.account, d.region + ("/" + d.roleARN));
      SplitAtSlash(c.region, c.roleARN, d.region, d.roleARN);
    }
  }

  /** Callers as AWS has them are always served by their own manager, and no cached key is ever dropped. */
  lemma RealCallersGetTheirOwnManager(fs: seq<Factory>, i: nat, j: nat)
    requires var allowed := iset c: Caller | NoSlash(c.account) && NoSlash(c.region);
      Run(fs, allowed) && i <= j < |fs|
    ensures ReturnsOwnManagers(fs[j])
    ensures fs[i].cache.Keys <= fs[j].cache.Keys
    decreases j
  {
    var allowed := iset c: Caller | NoSlash(c.account) && NoSlash(c.region);
    forall c <- allowed, d <- allowed | CacheKey(c) == CacheKey(d)
      ensures c == d
    {
      KeyIsInjective(c, d);
    }
    EveryCallerGetsItsOwnManager(allowed);
    if i < j {
      RunStaysSound(fs, allowed, j);
      RealCallersGetTheirOwnManager(fs, i, j - 1);
    }
  }
}
