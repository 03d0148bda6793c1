/**
 pkg/tags/sync.go: the two-call synchronisation of a certificate's tags with ACM.

 The remote store is a map. Adding overwrites by key; removing takes a tag away only when the
 value supplied with it is the stored one. A call works through its tags one at a time and may
 fail at any point, also after its last tag, so a failed call can have had any part of its effect.
 */
module SyncTags {
  import opened Types
  import opened Tags
  import opened Conditions

  function Entry(m: map<string, string>, k: string): Option<string> {
    if k in m then Some(m[k]) else None
  }

  /** What removing the tags `gone` leaves: a tag with another value stays. */
  function Removed(store: map<string, string>, gone: map<string, string>): map<string, string> {
    map k <- store | Entry(gone, k) != Some(store[k]) :: store[k]
  }

  /** Each tag of `now` is as in `before` or as in `after`. */
  ghost predicate Partial(before: map<string, string>, after: map<string, string>, now: map<string, string>) {
    forall k :: Entry(now, k) == Entry(before, k) || Entry(now, k) == Entry(after, k)
  }

  lemma PrefixIsPart(tags: seq<Tag>, i: nat)
    requires WellFormed(tags) && i <= |tags|
    ensures forall k <- Denote(tags[..i]) :: Entry(Denote(tags), k) == Some(Denote(tags[..i])[k])
  {
    forall k <- Denote(tags[..i])
      ensures Entry(Denote(tags), k) == Some(Denote(tags[..i])[k])
    {
      var j := DenotedIsCarried(tags[..i], k);
      assert tags[j].key == Some(k) && LastAt(tags, k, j);
      LastTagWins(tags[..i], k, j);
      LastTagWins(tags, k, j);
    }
  }

  lemma NotYetDenoted(tags: seq<Tag>, i: nat)
    requires WellFormed(tags) && i < |tags|
    ensures tags[i].key.value !in Denote(tags[..i])
  {
    if tags[i].key.value in Denote(tags[..i]) {
      var j := DenotedIsCarried(tags[..i], tags[i].key.value);
      assert false;
    }
  }

  lemma RemovedOneMore(store: map<string, string>, gone: map<string, string>, k: string, v: string)
    requires k !in gone
    ensures var before := Removed(store, gone);
      Removed(store, gone[k := v]) == if Entry(before, k) == Some(v) then before - {k} else before
  {
  }

  /** After the first `i` tags each tag is as before or as after all of them. */
  lemma PartlyAdded(store: map<string, string>, tags: seq<Tag>, i: nat)
    requires WellFormed(tags) && i <= |tags|
    ensures Partial(store, store + Denote(tags), store + Denote(tags[..i]))
  {
    PrefixIsPart(tags, i);
  }

  lemma PartlyRemoved(store: map<string, string>, tags: seq<Tag>, i: nat)
    requires WellFormed(tags) && i <= |tags|
    ensures Partial(store, Removed(store, Denote(tags)), Removed(store, Denote(tags[..i])))
  {
    PrefixIsPart(tags, i);
  }

  /** Adding the next tag. */
  lemma AddedNext(store: map<string, string>, tags: seq<Tag>, i: nat)
    requires WellFormed(tags) && i < |tags|
    ensures store + Denote(tags[..i + 1]) == (store + Denote(tags[..i]))[tags[i].key.value := tags[i].value.value]
  {
    assert tags[..i + 1][..i] == tags[..i];
  }

  /** Removing the next tag. */
  lemma RemovedNext(store: map<string, string>, tags: seq<Tag>, i: nat)
    requires WellFormed(tags) && i < |tags|
    ensures var before, k := Removed(store, Denote(tags[..i])), tags[i].key.value;
      Removed(store, Denote(tags[..i + 1])) == if Entry(before, k) == tags[i].value then before - {k} else before
  {
    assert tags[..i + 1][..i] == tags[..i];
    NotYetDenoted(tags, i);
    RemovedOneMore(store, Denote(tags[..i]), tags[i].key.value, tags[i].value.value);
  }

  class RemoteTags {
    var store: map<string, string>
    var calls: nat
    /** How many calls have failed. */
    ghost var failures: nat
    /** The error of the last call that failed. */
    ghost var reported: Option<Error>
    /** Every state of the store so far, oldest first. */
    ghost var history: seq<map<string, string>>

    constructor (store: map<string, string>)
      ensures this.store == store && calls == 0 && failures == 0 && reported == None && history == []
    {
      this.store, calls, failures, reported, history := store, 0, 0, None, [];
    }

    method AddTags(tags: seq<Tag>) returns (err: Option<Error>)
      requires WellFormed(tags)
      modifies this
      ensures calls == old(calls) + 1
      ensures failures == old(failures) + if err.Some? then 1 else 0
      ensures reported == if err.Some? then err else old(reported)
      ensures err.None? ==> store == old(store) + Denote(tags)
      ensures Partial(old(store), old(store) + Denote(tags), store)
      ensures old(history) <= history
      ensures forall i :: |old(history)| <= i < |history| ==>
        Partial(old(store), old(store) + Denote(tags), history[i])
    {
      calls := calls + 1;
      for i := 0 to |tags|
        invariant calls == old(calls) + 1 && failures == old(failures) && reported == old(reported)
        invariant store == old(store) + Denote(tags[..i])
        invariant Partial(old(store), old(store) + Denote(tags), store)
        invariant old(history) <= history
        invariant forall j :: |old(history)| <= j < |history| ==>
          Partial(old(store), old(store) + Denote(tags), history[j])
      {
        if * {
          var e: Error := *;
          failures, reported := failures + 1, Some(e);
          return Some(e);
        }
        AddedNext(old(store), tags, i);
        PartlyAdded(old(store), tags, i + 1);
        store := store[tags[i].key.value := tags[i].value.value];
        history := history + [store];
      }
      assert tags[..|tags|] == tags;
      err := *;
      if err.Some? {
        failures, reported := failures + 1, err;
      }
    }

    method RemoveTags(tags: seq<Tag>) returns (err: Option<Error>)
      requires WellFormed(tags)
      modifies this
      ensures calls == old(calls) + 1
      ensures failures == old(failures) + if err.Some? then 1 else 0
      ensures reported == if err.Some? then err else old(reported)
      ensures err.None? ==> store == Removed(old(store), Denote(tags))
      ensures Partial(old(store), Removed(old(store), Denote(tags)), store)
      ensures old(history) <= history
      ensures forall i :: |old(history)| <= i < |history| ==>
        Partial(old(store), Removed(old(store), Denote(tags)), history[i])
    {
      calls := calls + 1;
      for i := 0 to |tags|
        invariant calls == old(calls) + 1 && failures == old(failures) && reported == old(reported)
        invariant store == Removed(old(store), Denote(tags[..i]))
        invariant Partial(old(store), Removed(old(store), Denote(tags)), store)
        invariant old(history) <= history
        invariant forall j :: |old(history)| <= j < |history| ==>
          Partial(old(store), Removed(old(store), Denote(tags)), history[j])
      {
        if * {
          var e: Error := *;
          failures, reported := failures + 1, Some(e);
          return Some(e);
        }
        RemovedNext(old(store), tags, i);
        PartlyRemoved(old(store), tags, i + 1);
        var k := tags[i].key.value;
        if k in store && store[k] == tags[i].value.value {
          store := store - {k};
        }
        history := history + [store];
      }
      assert tags[..|tags|] == tags;
      err := *;
      if err.Some? {
        failures, reported := failures + 1, err;
      }
    }
  }

  // ---------- The plan ----------

  function ToAdd(desired: map<string, string>, existing: map<string, string>): map<string, string> {
    map k <- desired | Entry(existing, k) != Some(desired[k]) :: desired[k]
  }

  function ToDelete(desired: map<string, string>, existing: map<string, string>): map<string, string> {
    existing - desired.Keys
  }

  /** The store after both calls. */
  function Synced(store: map<string, string>, desired: map<string, string>, existing: map<string, string>)
    : map<string, string>
  {
    Removed(store, ToDelete(desired, existing)) + ToAdd(desired, existing)
  }

  /** A state the store may be in during the synchronisation. */
  ghost predicate Intermediate(before: map<string, string>, desired: map<string, string>,
                               existing: map<string, string>, now: map<string, string>) {
    && Partial(before, Synced(before, desired, existing), now)
    && forall k <- desired :: Entry(existing, k) == Some(desired[k]) ==> Entry(now, k) == Entry(before, k)
  }

  /** A wanted tag is only written when no unwanted tag the listing knows is left. */
  ghost predicate RemovedBeforeAdded(before: map<string, string>, desired: map<string, string>,
                                     existing: map<string, string>, now: map<string, string>) {
    (exists k :: k in desired && Entry(now, k) != Entry(before, k)) ==>
      forall k <- existing :: k !in desired ==> Entry(now, k) != Some(existing[k])
  }

  /** The pointers a tag list yields key by key; reading it dereferences every key. */
  function Pointers(tags: seq<Tag>): map<string, Option<string>>
    requires forall t <- tags :: t.key.Some?
  {
    if tags == [] then map[] else
      Pointers(tags[..|tags| - 1])[tags[|tags| - 1].key.value := tags[|tags| - 1].value]
  }

  /** No nil pointer is dereferenced: each key is present, and each value that no later tag replaces. */
  ghost predicate Usable(tags: seq<Tag>) {
    (forall t <- tags :: t.key.Some?) && forall k <- Pointers(tags) :: Pointers(tags)[k].Some?
  }

  lemma {:induction false} PointersDenote(tags: seq<Tag>)
    requires forall t <- tags :: t.key.Some?
    ensures Pointers(tags).Keys == Denote(tags).Keys
    ensures forall k <- Pointers(tags) :: Pointers(tags)[k].Some? ==> Pointers(tags)[k].value == Denote(tags)[k]
  {
    if tags != [] {
      PointersDenote(tags[..|tags| - 1]);
    }
  }

  lemma {:induction false} WellFormedIsUsable(tags: seq<Tag>)
    requires WellFormed(tags)
    ensures Usable(tags)
  {
    if tags != [] {
      var before := tags[..|tags| - 1];
      assert forall t <- before :: t in tags;
      WellFormedIsUsable(before);
    }
  }

  // ---------- The operations ----------

  method ToSDKTags(tags: map<string, string>) returns (sdkTags: seq<Tag>)
    ensures WellFormed(sdkTags) && Denote(sdkTags) == tags
  {
    sdkTags := [];
    var pending := tags.Keys;
    while pending != {}
      invariant pending <= tags.Keys
      invariant WellFormed(sdkTags)
      invariant forall t <- sdkTags :: t.key.value !in pending
      invariant Denote(sdkTags) == tags - pending
    {
      var k :| k in pending;
      ghost var before := sdkTags;
      sdkTags := sdkTags + [Tag(Some(k), Some(tags[k]))];
      assert sdkTags[..|sdkTags| - 1] == before;
      pending := pending - {k};
    }
  }

  method CollectTags(tags: seq<Tag>) returns (collected: map<string, Option<string>>)
    requires forall t <- tags :: t.key.Some?
    ensures collected == Pointers(tags)
  {
    collected := map[];
    for i := 0 to |tags|
      invariant collected == Pointers(tags[..i])
    {
      assert tags[..i + 1][..i] == tags[..i];
      collected := collected[tags[i].key.value := tags[i].value];
    }
    assert tags[..|tags|] == tags;
  }

  /** Compares the two collected maps; the tags to remove keep the values they are stored with. */
  method PlanSync(desiredTags: map<string, Option<string>>, existingTags: map<string, Option<string>>,
                  ghost desired: map<string, string>, ghost existing: map<string, string>)
    returns (toAdd: map<string, string>, toDelete: map<string, string>)
    requires desiredTags == map k <- desired :: Some(desired[k])
    requires existingTags == map k <- existing :: Some(existing[k])
    ensures toAdd == ToAdd(desired, existing)
    ensures toDelete == ToDelete(desired, existing)
  {
    toAdd := map[];
    var pending := desiredTags.Keys;
    while pending != {}
      invariant pending <= desiredTags.Keys
      invariant toAdd == ToAdd(desired, existing) - pending
    {
      var k :| k in pending;
      if k !in existingTags || existingTags[k].value != desiredTags[k].value {
        toAdd := toAdd[k := desiredTags[k].value];
      }
      pending := pending - {k};
    }
    toDelete := map[];
    pending := existingTags.Keys;
    while pending != {}
      invariant pending <= existingTags.Keys
      invariant toDelete == ToDelete(desired, existing) - pending
    {
      var k :| k in pending;
      if k !in desiredTags {
        toDelete := toDelete[k := existingTags[k].value];
      }
      pending := pending - {k};
    }
  }

  method SyncTags(remote: RemoteTags, aTags: seq<Tag>, bTags: seq<Tag>) returns (err: Option<Error>)
    requires Usable(aTags) && Usable(bTags)
    modifies remote
    ensures err.None? ==> remote.store == Synced(old(remote.store), Denote(aTags), Denote(bTags))
    ensures Intermediate(old(remote.store), Denote(aTags), Denote(bTags), remote.store)
    ensures old(remote.history) <= remote.history
    ensures forall i :: |old(remote.history)| <= i < |remote.history| ==>
      Intermediate(old(remote.store), Denote(aTags), Denote(bTags), remote.history[i])
    ensures RemovedBeforeAdded(old(remote.store), Denote(aTags), Denote(bTags), remote.store)
    ensures forall i :: |old(remote.history)| <= i < |remote.history| ==>
      RemovedBeforeAdded(old(remote.store), Denote(aTags), Denote(bTags), remote.history[i])
    ensures err.Some? <==> remote.failures != old(remote.failures)
    ensures remote.reported == if err.Some? then err else old(remote.reported)
    ensures old(remote.calls) <= remote.calls
    ensures remote.calls == old(remote.calls) <==> Denote(aTags) == Denote(bTags)
  {
    var desiredTags := CollectTags(aTags);
    var existingTags := CollectTags(bTags);
    ghost var desired, existing := Denote(aTags), Denote(bTags);
    PointersDenote(aTags);
    PointersDenote(bTags);
    var toAdd, toDelete := PlanSync(desiredTags, existingTags, desired, existing);
    NothingToDo(desired, existing);
    err := RunPlan(remote, toAdd, toDelete);
    StatesOfThePlan(old(remote.store), desired, existing, remote.history, |old(remote.history)|);
    StateOfThePlan(old(remote.store), desired, existing, remote.store);
  }

  /** The two calls, removal first; an empty call is not made and a failed one ends the run. */
  method RunPlan(remote: RemoteTags, toAdd: map<string, string>, toDelete: map<string, string>)
    returns (err: Option<Error>)
    modifies remote
    ensures err.None? ==> remote.store == Removed(old(remote.store), toDelete) + toAdd
    ensures DuringCalls(old(remote.store), toAdd, toDelete, remote.store)
    ensures old(remote.history) <= remote.history
    ensures forall i :: |old(remote.history)| <= i < |remote.history| ==>
      DuringCalls(old(remote.store), toAdd, toDelete, remote.history[i])
    ensures err.Some? <==> remote.failures != old(remote.failures)
    ensures remote.reported == if err.Some? then err else old(remote.reported)
    ensures old(remote.calls) <= remote.calls
    ensures remote.calls == old(remote.calls) <==> toAdd == map[] && toDelete == map[]
  {
    err := None;
    if |toDelete| > 0 {
      err := RemoveTags(remote, toDelete);
      if err.Some? {
        return;
      }
    } else {
      assert Removed(remote.store, toDelete) == remote.store;
    }
    if |toAdd| > 0 {
      err := AddTags(remote, toAdd);
    }
  }

  method AddTags(remote: RemoteTags, tags: map<string, string>) returns (err: Option<Error>)
    modifies remote
    ensures remote.calls == old(remote.calls) + 1
    ensures remote.failures == old(remote.failures) + if err.Some? then 1 else 0
    ensures remote.reported == if err.Some? then err else old(remote.reported)
    ensures err.None? ==> remote.store == old(remote.store) + tags
    ensures Partial(old(remote.store), old(remote.store) + tags, remote.store)
    ensures old(remote.history) <= remote.history
    ensures forall i :: |old(remote.history)| <= i < |remote.history| ==>
      Partial(old(remote.store), old(remote.store) + tags, remote.history[i])
  {
    var sdkTags := ToSDKTags(tags);
    err := remote.AddTags(sdkTags);
  }

  method RemoveTags(remote: RemoteTags, tags: map<string, string>) returns (err: Option<Error>)
    modifies remote
    ensures remote.calls == old(remote.calls) + 1
    ensures remote.failures == old(remote.failures) + if err.Some? then 1 else 0
    ensures remote.reported == if err.Some? then err else old(remote.reported)
    ensures err.None? ==> remote.store == Removed(old(remote.store), tags)
    ensures Partial(old(remote.store), Removed(old(remote.store), tags), remote.store)
    ensures old(remote.history) <= remote.history
    ensures forall i :: |old(remote.history)| <= i < |remote.history| ==>
      Partial(old(remote.store), Removed(old(remote.store), tags), remote.history[i])
  {
    var sdkTags := ToSDKTags(tags);
    err := remote.RemoveTags(sdkTags);
  }

  /** Between, before and after the two calls. */
  ghost predicate DuringCalls(before: map<string, string>, toAdd: map<string, string>,
                              toDelete: map<string, string>, now: map<string, string>) {
    var kept := Removed(before, toDelete);
    Partial(before, kept, now) || Partial(kept, kept + toAdd, now)
  }

  lemma StateOfThePlan(before: map<string, string>, desired: map<string, string>,
                       existing: map<string, string>, now: map<string, string>)
    requires DuringCalls(before, ToAdd(desired, existing), ToDelete(desired, existing), now)
    ensures Intermediate(before, desired, existing, now)
    ensures RemovedBeforeAdded(before, desired, existing, now)
  {
  }

  lemma StatesOfThePlan(before: map<string, string>, desired: map<string, string>,
                        existing: map<string, string>, states: seq<map<string, string>>, from: nat)
    requires forall i :: from <= i < |states| ==>
      DuringCalls(before, ToAdd(desired, existing), ToDelete(desired, existing), states[i])
    ensures forall i :: from <= i < |states| ==> Intermediate(before, desired, existing, states[i])
    ensures forall i :: from <= i < |states| ==> RemovedBeforeAdded(before, desired, existing, states[i])
  {
    forall i | from <= i < |states|
      ensures Intermediate(before, desired, existing, states[i])
      ensures RemovedBeforeAdded(before, desired, existing, states[i])
    {
      StateOfThePlan(before, desired, existing, states[i]);
    }
  }

  // ---------- Main results ----------

  /** The synchronisation calls ACM exactly when the two lists denote different maps. */
  lemma NothingToDo(desired: map<string, string>, existing: map<string, string>)
    ensures ToAdd(desired, existing) == map[] && ToDelete(desired, existing) == map[] <==> desired == existing
  {
    if ToAdd(desired, existing) == map[] && ToDelete(desired, existing) == map[] {
      forall k
        ensures Entry(desired, k) == Entry(existing, k)
      {
        assert k !in ToAdd(desired, existing) && k !in ToDelete(desired, existing);
      }
      assert forall k :: k in desired <==> Entry(desired, k).Some?;
    }
  }

  /**
   With any listing, stale or not, the store ends as the desired map exactly when the listing is
   right about the tags the plan leaves alone: those it finds up to date and those not desired.
   */
  lemma SyncReachesDesired(store: map<string, string>, desired: map<string, string>, existing: map<string, string>)
    ensures Synced(store, desired, existing) == desired <==>
      && (forall k <- desired :: Entry(existing, k) == Some(desired[k]) ==> Entry(store, k) == Some(desired[k]))
      && (forall k <- store :: k !in desired ==> Entry(existing, k) == Some(store[k]))
  {
  }

  /** After a failure at any point, a retry against a fresh listing still reaches the desired map. */
  lemma RetryReachesDesired(desired: map<string, string>, stale: map<string, string>,
                            before: map<string, string>, broken: map<string, string>)
    requires Intermediate(before, desired, stale, broken)
    ensures Synced(broken, desired, broken) == desired
  {
  }

  /** With an exact listing each tag is always as it was or as it is wanted, so no common tag is ever absent. */
  lemma NoTagIsLostInBetween(existing: map<string, string>, desired: map<string, string>, now: map<string, string>)
    requires Intermediate(existing, desired, existing, now)
    ensures Partial(existing, desired, now)
    ensures forall k :: Entry(existing, k) == Entry(desired, k) ==> Entry(now, k) == Entry(desired, k)
  {
  }

  /**
   Any number of failed attempts, each against a fresh listing, leave every tag as it was or as it
   is wanted, and the first attempt that succeeds then reaches the desired map.
   */
  lemma {:induction false} FailedAttemptsLoseNoTag(states: seq<map<string, string>>, desired: map<string, string>,
                                                   i: nat)
    requires forall j :: 0 <= j < |states| - 1 ==> Intermediate(states[j], desired, states[j], states[j + 1])
    requires i < |states|
    ensures Partial(states[0], desired, states[i])
    ensures Synced(states[i], desired, states[i]) == desired
  {
    SyncReachesDesired(states[i], desired, states[i]);
    if i > 0 {
      FailedAttemptsLoseNoTag(states, desired, i - 1);
      assert Intermediate(states[i - 1], desired, states[i - 1], states[i - 1 + 1]);
      NoTagIsLostInBetween(states[i - 1], desired, states[i]);
    }
  }

  /** Mirroring takes the AWS-managed tags that exist remotely out of the plan and changes nothing else in it. */
  lemma MirroringOnlySparesAWSTags(desired: map<string, string>, latest: map<string, string>, k: string)
    ensures var mirrored := WithAWSOf(desired, latest);
      if IsAWS(k) && k in latest then
        k !in ToAdd(mirrored, latest) && k !in ToDelete(mirrored, latest)
      else
        && Entry(ToAdd(mirrored, latest), k) == Entry(ToAdd(desired, latest), k)
        && Entry(ToDelete(mirrored, latest), k) == Entry(ToDelete(desired, latest), k)
  {
  }

  /**
   After `ReadOne` has mirrored the AWS tags of a listing into the desired list, synchronising
   against that listing leaves every AWS-managed tag of ACM as it is, at every moment.
   */
  lemma MirroredSyncKeepsAWSTags(user: seq<Tag>, latest: seq<Tag>, mirrored: seq<Tag>,
                                 before: map<string, string>, now: map<string, string>, k: string)
    requires Lists(mirrored, WithAWSOf(Denote(user), Denote(latest)), KeyOrder(user))
    requires before == Denote(latest)
    requires Intermediate(before, Denote(mirrored), Denote(latest), now)
    ensures Usable(mirrored)
    ensures IsAWS(k) && k in before ==> Entry(now, k) == Entry(before, k)
  {
    ListingKeepsTheMap(mirrored, WithAWSOf(Denote(user), Denote(latest)), KeyOrder(user));
    WellFormedIsUsable(mirrored);
    if IsAWS(k) && k in before {
      assert k in Denote(mirrored) && Denote(mirrored)[k] == before[k];
    }
  }
}
