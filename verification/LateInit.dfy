/**
 Late initialization (manager.go): fields the user left unset are filled in from an observation.
 */
module LateInit {
  import opened Types
  import opened Tags
  import opened Conditions
  import opened Describe
  import opened Delta

  function LateOptions(own: Option<CertificateOptions>, observed: Option<CertificateOptions>)
    : Option<CertificateOptions>
  {
    if own.None? then observed
    else Some(own.value.(exportable := own.value.exportable.OrElse(ExportOf(observed))))
  }

  function LateSpec(own: CertificateSpec, observed: CertificateSpec): CertificateSpec {
    own.(domainValidationOptions := own.domainValidationOptions.OrElse(observed.domainValidationOptions),
         subjectAlternativeNames := own.subjectAlternativeNames.OrElse(observed.subjectAlternativeNames),
         keyAlgorithm := own.keyAlgorithm.OrElse(observed.keyAlgorithm),
         options := LateOptions(own.options, observed.options))
  }

  predicate Incomplete(spec: CertificateSpec) {
    spec.keyAlgorithm.None? || spec.options.None? || spec.options.value.exportable.None?
    || spec.subjectAlternativeNames.None?
  }

  // ---------- Conditions as values ----------

  const LATE_INITIALIZED := OtherType("ACK.LateInitialized")
  const READ_FAILED := "Unable to complete Read operation required for late initialization"
  const DELAYED := "Late initialization did not complete, requeuing with delay of 5 seconds"
  const SUCCESSFUL := "Late initialization successful"

  /** The first condition of a type: the one the runtime edits. */
  function FirstOf(vs: seq<ConditionValue>, t: ConditionType): (r: Option<nat>)
    ensures r.None? <==> forall i :: 0 <= i < |vs| ==> vs[i].ctype != t
    ensures r.Some? ==> r.value < |vs| && vs[r.value].ctype == t
    ensures r.Some? ==> forall i :: 0 <= i < r.value ==> vs[i].ctype != t
  {
    if vs == [] then None
    else if vs[0].ctype == t then Some(0)
    else match FirstOf(vs[1..], t)
      case Some(i) => Some(i + 1)
      case None => None
  }

  function Marked(vs: seq<ConditionValue>, v: ConditionValue): seq<ConditionValue> {
    match FirstOf(vs, v.ctype)
    case Some(i) => vs[i := v]
    case None => vs + [v]
  }

  function LateConditions(vs: seq<ConditionValue>, complete: bool, message: string): seq<ConditionValue> {
    var done := Marked(vs, ConditionValue(LATE_INITIALIZED, complete, Some(message)));
    if complete then done else Marked(done, ConditionValue(ResourceSynced, false, None))
  }

  // ---------- The operations ----------

  /** The runtime's way of setting a condition: the first of its type is edited, or one is added. */
  method SetCondition(ko: Certificate, v: ConditionValue)
    requires Distinct(ko.conditions)
    modifies ko`conditions, ko.conditions
    ensures Values(ko.conditions) == Marked(old(Values(ko.conditions)), v)
    ensures Distinct(ko.conditions)
    ensures fresh(set c <- ko.conditions | c !in old(ko.conditions))
  {
    var i := 0;
    while i < |ko.conditions| && ko.conditions[i].ctype != v.ctype
      invariant 0 <= i <= |ko.conditions|
      invariant forall j :: 0 <= j < i ==> ko.conditions[j].ctype != v.ctype
    {
      i := i + 1;
    }
    ghost var vs := Values(ko.conditions);
    if i < |ko.conditions| {
      assert FirstOf(vs, v.ctype) == Some(i) by {
        assert vs[i].ctype == v.ctype;
      }
      ko.conditions[i].status := v.status;
      ko.conditions[i].message := v.message;
    } else {
      var c := new Condition(v);
      ko.conditions := ko.conditions + [c];
    }
    assert Values(ko.conditions) == Marked(vs, v);
  }

  method SetLateConditions(ko: Certificate, complete: bool, message: string)
    requires Distinct(ko.conditions)
    modifies ko`conditions, ko.conditions
    ensures Values(ko.conditions) == LateConditions(old(Values(ko.conditions)), complete, message)
  {
    SetCondition(ko, ConditionValue(LATE_INITIALIZED, complete, Some(message)));
    if !complete {
      SetCondition(ko, ConditionValue(ResourceSynced, false, None));
    }
  }

  /** The fields the generated code fills in, on a private copy. */
  method FillIn(latestKo: Certificate, observedKo: Certificate)
    requires latestKo != observedKo
    modifies latestKo`spec
    ensures latestKo.spec == LateSpec(old(latestKo.spec),
      observedKo.spec.(domainValidationOptions := old(latestKo.spec.domainValidationOptions)))
  {
    if observedKo.spec.keyAlgorithm.Some? && latestKo.spec.keyAlgorithm.None? {
      latestKo.spec := latestKo.spec.(keyAlgorithm := observedKo.spec.keyAlgorithm);
    }
    if observedKo.spec.options.Some? && latestKo.spec.options.None? {
      latestKo.spec := latestKo.spec.(options := observedKo.spec.options);
    }
    if observedKo.spec.options.Some? && latestKo.spec.options.Some? {
      if observedKo.spec.options.value.exportable.Some? && latestKo.spec.options.value.exportable.None? {
        latestKo.spec := latestKo.spec.(options :=
          Some(latestKo.spec.options.value.(exportable := observedKo.spec.options.value.exportable)));
      }
    }
    if observedKo.spec.subjectAlternativeNames.Some? && latestKo.spec.subjectAlternativeNames.None? {
      latestKo.spec := latestKo.spec.(subjectAlternativeNames := observedKo.spec.subjectAlternativeNames);
    }
  }

  method LateInitializeFromReadOneOutput(observed: Certificate, latest: Certificate) returns (result: Certificate)
    ensures fresh(result) && result.status == latest.status
    ensures fresh(result.conditions) && Distinct(result.conditions)
    ensures Values(result.conditions) == Values(latest.conditions)
    ensures result.spec ==
      LateSpec(latest.spec, observed.spec.(domainValidationOptions := latest.spec.domainValidationOptions))
  {
    var observedKo := observed.DeepCopy();
    var latestKo := latest.DeepCopy();
    FillIn(latestKo, observedKo);
    return latestKo;
  }

  method IncompleteLateInitialization(res: Certificate) returns (incomplete: bool)
    ensures incomplete <==> Incomplete(res.spec)
  {
    var ko := res.DeepCopy();
    if ko.spec.keyAlgorithm.None? {
      return true;
    }
    if ko.spec.options.None? {
      return true;
    }
    if ko.spec.options.Some? {
      if ko.spec.options.value.exportable.None? {
        return true;
      }
    }
    if ko.spec.subjectAlternativeNames.None? {
      return true;
    }
    return false;
  }

  /** `late` is a late initialization of `own` from the observation `o`. */
  ghost predicate LateInitialized(own: Snapshot, o: Snapshot, late: Snapshot) {
    && late.status == own.status
    && late.spec == LateSpec(own.spec, o.spec).(tags := late.spec.tags)
    && Lists(late.spec.tags, WithAWSOf(Denote(own.spec.tags), Denote(o.spec.tags)), KeyOrder(own.spec.tags))
  }

  function WithLists(own: CertificateSpec, observed: CertificateSpec): CertificateSpec {
    own.(domainValidationOptions := own.domainValidationOptions.OrElse(observed.domainValidationOptions),
         subjectAlternativeNames := own.subjectAlternativeNames.OrElse(observed.subjectAlternativeNames))
  }

  method FillInLists(latestKo: Certificate, observedKo: Certificate)
    requires latestKo != observedKo
    modifies latestKo`spec
    ensures latestKo.spec == WithLists(old(latestKo.spec), observedKo.spec)
  {
    if observedKo.spec.domainValidationOptions.Some? && latestKo.spec.domainValidationOptions.None? {
      latestKo.spec := latestKo.spec.(domainValidationOptions := observedKo.spec.domainValidationOptions);
    }
    if observedKo.spec.subjectAlternativeNames.Some? && latestKo.spec.subjectAlternativeNames.None? {
      latestKo.spec := latestKo.spec.(subjectAlternativeNames := observedKo.spec.subjectAlternativeNames);
    }
  }

  /** The two lists are filled in first, the other fields by the generated code. */
  function FilledFrom(own: CertificateSpec, observed: CertificateSpec): CertificateSpec {
    var filled := WithLists(own, observed);
    LateSpec(filled, observed.(domainValidationOptions := filled.domainValidationOptions))
  }

  method ReportCompletion(res: Certificate) returns (complete: bool)
    requires Distinct(res.conditions)
    modifies res`conditions, res.conditions
    ensures complete <==> !Incomplete(res.spec)
    ensures Values(res.conditions) ==
      LateConditions(old(Values(res.conditions)), complete, if complete then SUCCESSFUL else DELAYED)
  {
    var incomplete := IncompleteLateInitialization(res);
    if incomplete {
      SetLateConditions(res, false, DELAYED);
      return false;
    }
    SetLateConditions(res, true, SUCCESSFUL);
    return true;
  }

  method InitializeFrom(latestCopy: Certificate, observed: Certificate) returns (result: Certificate, complete: bool)
    requires latestCopy != observed
    modifies latestCopy`spec
    ensures fresh(result) && result.status == old(latestCopy.status)
    ensures result.spec == FilledFrom(old(latestCopy.spec), observed.spec)
    ensures complete <==> !Incomplete(result.spec)
    ensures Values(result.conditions) ==
      LateConditions(old(Values(latestCopy.conditions)), complete, if complete then SUCCESSFUL else DELAYED)
  {
    FillInLists(latestCopy, observed);
    result := LateInitializeFromReadOneOutput(observed, latestCopy);
    complete := ReportCompletion(result);
  }

  /** The resource is read through a copy, into which the observed AWS tags are mirrored. */
  method ReadThroughCopy(latest: Certificate, described: Result<CertificateDetail>,
                         listed: Result<seq<Tag>>, id: Identity)
    returns (latestCopy: Certificate, observed: Certificate, err: Option<Error>)
    ensures err.None? <==> FindError(latest.Value(), described, listed).None?
    ensures fresh(latestCopy) && fresh(latestCopy.conditions) && Distinct(latestCopy.conditions)
    ensures latestCopy != observed
    ensures latestCopy.status == latest.status && Values(latestCopy.conditions) == Values(latest.conditions)
    ensures latestCopy.spec == latest.spec.(tags := latestCopy.spec.tags)
    ensures err.Some? ==> latestCopy.spec == latest.spec
    ensures err.None? ==> observed.spec == ObservedSpec(latest.spec, described.value, listed.value)
    ensures err.None? ==>
      Lists(latestCopy.spec.tags, WithAWSOf(Denote(latest.spec.tags), Denote(listed.value)), KeyOrder(latest.spec.tags))
  {
    latestCopy := latest.DeepCopy();
    observed, err := ReadOne(latestCopy, described, listed, id);
  }

  /** `complete` is false when the runtime is to try again; the resource passed in is left alone. */
  method LateInitialize(latest: Certificate, described: Result<CertificateDetail>,
                        listed: Result<seq<Tag>>, id: Identity)
    returns (result: Certificate, err: Option<Error>, complete: bool)
    ensures err.None? <==> FindError(latest.Value(), described, listed).None?
    ensures fresh(result)
    ensures err.Some? ==> result.Value() == latest.Value() && !complete
    ensures err.None? ==>
      LateInitialized(latest.Value(), Observe(latest.Value(), described.value, listed.value, id), result.Value())
    ensures err.None? ==> (complete <==> !Incomplete(result.spec))
    ensures Values(result.conditions) ==
      LateConditions(Values(latest.conditions), complete,
                     if err.Some? then READ_FAILED else if complete then SUCCESSFUL else DELAYED)
  {
    var latestCopy, observed;
    latestCopy, observed, err := ReadThroughCopy(latest, described, listed, id);
    if err.Some? {
      SetLateConditions(latestCopy, false, READ_FAILED);
      return latestCopy, err, false;
    }
    ghost var mirrored := latestCopy.spec.tags;
    result, complete := InitializeFrom(latestCopy, observed);
    FilledInIsLate(latest.Value(), Observe(latest.Value(), described.value, listed.value, id),
                   mirrored, result.Value());
  }

  lemma FilledInIsLate(own: Snapshot, o: Snapshot, mirrored: seq<Tag>, late: Snapshot)
    requires Lists(mirrored, WithAWSOf(Denote(own.spec.tags), Denote(o.spec.tags)), KeyOrder(own.spec.tags))
    requires late.status == own.status
    requires late.spec == FilledFrom(own.spec.(tags := mirrored), o.spec)
    ensures LateInitialized(own, o, late)
  {
  }

  // ---------- Main results ----------

  ghost predicate Kept<T>(before: Option<T>, after: Option<T>) {
    before.Some? ==> after == before
  }

  /** Every set field keeps its value, inside the options too, and of the other fields only tags change. */
  ghost predicate Refines(before: CertificateSpec, after: CertificateSpec) {
    && after == before.(domainValidationOptions := after.domainValidationOptions,
                        subjectAlternativeNames := after.subjectAlternativeNames,
                        keyAlgorithm := after.keyAlgorithm, options := after.options, tags := after.tags)
    && Kept(before.domainValidationOptions, after.domainValidationOptions)
    && Kept(before.subjectAlternativeNames, after.subjectAlternativeNames)
    && Kept(before.keyAlgorithm, after.keyAlgorithm)
    && (before.options.Some? ==>
      && after.options.Some?
      && after.options.value.logging == before.options.value.logging
      && Kept(before.options.value.exportable, after.options.value.exportable))
  }

  /** Each field left unset has the observed value afterwards, the export preference inside set options too. */
  ghost predicate FillsFrom(before: CertificateSpec, observed: CertificateSpec, after: CertificateSpec) {
    && (before.domainValidationOptions.None? ==> after.domainValidationOptions == observed.domainValidationOptions)
    && (before.subjectAlternativeNames.None? ==> after.subjectAlternativeNames == observed.subjectAlternativeNames)
    && (before.keyAlgorithm.None? ==> after.keyAlgorithm == observed.keyAlgorithm)
    && (before.options.None? ==> after.options == observed.options)
    && (before.options.Some? && before.options.value.exportable.None? ==>
         after.options.Some? && after.options.value.exportable ==
           if observed.options.Some? then observed.options.value.exportable else None)
  }

  /**
   Late initialization never overwrites a set field, and an unset one gets the observed value. No
   tag is lost; a tag's value is overwritten exactly when it is AWS-managed and observed with
   another value, and only such tags are added.
   */
  lemma LateInitializationRefines(own: Snapshot, o: Snapshot, late: Snapshot)
    requires LateInitialized(own, o, late)
    ensures Refines(own.spec, late.spec)
    ensures FillsFrom(own.spec, o.spec, late.spec)
    ensures var mine, seen, now := Denote(own.spec.tags), Denote(o.spec.tags), Denote(late.spec.tags);
      && (forall k <- mine :: k in now && (now[k] != mine[k] <==> "aws:" <= k && k in seen && seen[k] != mine[k]))
      && (forall k <- now :: k in mine || ("aws:" <= k && k in seen && now[k] == seen[k]))
      && (now == mine <==> forall k <- seen :: "aws:" <= k ==> k in mine && mine[k] == seen[k])
  {
    MirroredExactly(own.spec.tags, o.spec.tags, late.spec.tags);
    ListingKeepsTheMap(late.spec.tags, WithAWSOf(Denote(own.spec.tags), Denote(o.spec.tags)), KeyOrder(own.spec.tags));
  }

  /** Initializing again from the same response changes nothing at all, whatever order a map is visited in. */
  lemma LateInitializationIsIdempotent(own: Snapshot, d: CertificateDetail, listing: seq<Tag>, id: Identity,
                                       late: Snapshot, again: Snapshot)
    requires LateInitialized(own, Observe(own, d, listing, id), late)
    requires LateInitialized(late, Observe(late, d, listing, id), again)
    ensures again == late
  {
    var mine, seen := Denote(own.spec.tags), Denote(listing);
    ListingKeepsTheMap(late.spec.tags, WithAWSOf(mine, seen), KeyOrder(own.spec.tags));
    ListingIsNormal(late.spec.tags, WithAWSOf(mine, seen), KeyOrder(own.spec.tags));
    assert WithAWSOf(WithAWSOf(mine, seen), seen) == WithAWSOf(mine, seen);
    RoundTripIsNormal(late.spec.tags, again.spec.tags);
  }

  /** Against the observation it copied from, late initialization only removes differences, tags included. */
  lemma LateInitializationNeverAddsADifference(own: Snapshot, o: Snapshot, late: Snapshot)
    requires LateInitialized(own, o, late)
    ensures Differences(late, o) <= Differences(own, o)
  {
    var mine, seen := Denote(own.spec.tags), Denote(o.spec.tags);
    ListingKeepsTheMap(late.spec.tags, WithAWSOf(mine, seen), KeyOrder(own.spec.tags));
    assert WithAWSOf(seen, seen) == seen;
    forall p: Path | Differs(p, late, o)
      ensures Differs(p, own, o)
    {
    }
  }

  /** What remains different afterwards was set by the user or missing in the observation. */
  lemma LateInitializationSettles(own: Snapshot, o: Snapshot, late: Snapshot)
    requires LateInitialized(own, o, late)
    ensures late.spec.options == o.spec.options <==>
      (own.spec.options.None?
       || (&& o.spec.options.Some?
           && own.spec.options.value.logging == o.spec.options.value.logging
           && Kept(own.spec.options.value.exportable, o.spec.options.value.exportable)))
  {
  }

  /** Completion is reported exactly when each required field was set or observed. */
  lemma CompleteWhenSetOrObserved(own: Snapshot, o: Snapshot, late: Snapshot)
    requires LateInitialized(own, o, late)
    ensures !Incomplete(late.spec) <==>
      (&& (own.spec.keyAlgorithm.Some? || o.spec.keyAlgorithm.Some?)
       && (ExportOf(own.spec.options).Some? || ExportOf(o.spec.options).Some?)
       && (own.spec.subjectAlternativeNames.Some? || o.spec.subjectAlternativeNames.Some?))
  {
  }

  ghost predicate AtMostOne(vs: seq<ConditionValue>, t: ConditionType) {
    forall i, j :: 0 <= i < j < |vs| ==> vs[i].ctype != t || vs[j].ctype != t
  }

  lemma MarkedKeeps(vs: seq<ConditionValue>, v: ConditionValue)
    requires AtMostOne(vs, v.ctype)
    ensures HasTrue(Marked(vs, v), v.ctype) <==> v.status
    ensures forall u :: u != v.ctype ==> (HasTrue(Marked(vs, v), u) <==> HasTrue(vs, u))
    ensures forall u :: AtMostOne(vs, u) ==> AtMostOne(Marked(vs, v), u)
  {
    var now := Marked(vs, v);
    var at := if FirstOf(vs, v.ctype).Some? then FirstOf(vs, v.ctype).value else |vs|;
    assert now[at] == v;
    assert forall i :: 0 <= i < |vs| && i != at ==> now[i] == vs[i];
    assert v.status ==> IsTrue(now[at], v.ctype);
    forall u | u != v.ctype
      ensures HasTrue(now, u) <==> HasTrue(vs, u)
    {
      assert forall i :: 0 <= i < |vs| ==> (IsTrue(now[i], u) <==> IsTrue(vs[i], u));
    }
  }

  /** The conditions tell the outcome: only a complete late initialization leaves a resource synced. */
  lemma LateConditionsTellTheOutcome(vs: seq<ConditionValue>, complete: bool, message: string)
    requires AtMostOne(vs, LATE_INITIALIZED) && AtMostOne(vs, ResourceSynced)
    ensures var now := LateConditions(vs, complete, message);
      && (HasTrue(now, LATE_INITIALIZED) <==> complete)
      && (HasTrue(now, ResourceSynced) <==> complete && HasTrue(vs, ResourceSynced))
      && (HasTrue(now, Terminal) <==> HasTrue(vs, Terminal))
      && (HasTrue(now, Recoverable) <==> HasTrue(vs, Recoverable))
  {
    var v := ConditionValue(LATE_INITIALIZED, complete, Some(message));
    MarkedKeeps(vs, v);
    if !complete {
      MarkedKeeps(Marked(vs, v), ConditionValue(ResourceSynced, false, None));
    }
  }
}
