/**
 The outcome of a reconcile step as conditions of the resource: `updateConditions` of sdk.go with
 `onError` and `onSuccess` of manager.go.
 */
module Conditions {
  import opened Types

  // ---------- Errors ----------

  /** A Go error; `Wrapped` adds a message around another error, `TerminalError` marks
   one as terminal and `RequeueNeeded` asks for a retry because of one. */
  datatype Error =
    | ApiError(code: string, message: string)
    | SecretTypeNotSupported
    | SecretNotFound
    | NotFound
    | TerminalError(inner: Error)
    | Wrapped(message: string, inner: Error)
    | RequeueNeeded(inner: Error)
    | OtherError(message: string)
    | AckTerminal

  const TERMINAL_CODES: set<string> := {
    "InvalidParameterException", "InvalidDomainValidationOptionsException", "InvalidTagException",
    "TagPolicyException", "TooManyTagsException", "InvalidArnException"
  }

  /** The first API error in the chain of wrapped errors. */
  function AsApiError(e: Error): Option<Error> {
    match e
    case ApiError(_, _) => Some(e)
    case TerminalError(inner) => AsApiError(inner)
    case Wrapped(_, inner) => AsApiError(inner)
    case RequeueNeeded(inner) => AsApiError(inner)
    case _ => None
  }

  predicate HasTerminalError(e: Error) {
    e.TerminalError? || ((e.Wrapped? || e.RequeueNeeded?) && HasTerminalError(e.inner))
  }

  predicate TerminalAWSError(err: Option<Error>) {
    err.Some? && AsApiError(err.value).Some? && AsApiError(err.value).value.ApiError?
    && AsApiError(err.value).value.code in TERMINAL_CODES
  }

  /** An error no retry can cure. */
  predicate IsTerminal(err: Option<Error>) {
    TerminalAWSError(err)
    || err == Some(SecretTypeNotSupported) || err == Some(SecretNotFound)
    || (err.Some? && HasTerminalError(err.value))
  }

  /** Asking for a retry keeps an error terminal, except that an unusable Secret is then tried again. */
  lemma RequeueIsRetried(e: Error)
    ensures IsTerminal(Some(RequeueNeeded(e))) <==>
      IsTerminal(Some(e)) && e != SecretNotFound && e != SecretTypeNotSupported
  {
  }

  /** An error and the errors it wraps, outermost first. */
  function Chain(e: Error): (chain: seq<Error>)
    ensures |chain| > 0
  {
    match e
    case TerminalError(inner) => [e] + Chain(inner)
    case Wrapped(_, inner) => [e] + Chain(inner)
    case RequeueNeeded(inner) => [e] + Chain(inner)
    case _ => [e]
  }

  /** The innermost error. */
  function Root(e: Error): Error {
    if e.TerminalError? || e.Wrapped? || e.RequeueNeeded? then Root(e.inner) else e
  }

  /** The error of ACM in a chain is its innermost one. */
  lemma {:induction false} ApiErrorIsTheRoot(e: Error)
    ensures AsApiError(e) == if Root(e).ApiError? then Some(Root(e)) else None
  {
    if e.TerminalError? || e.Wrapped? || e.RequeueNeeded? {
      ApiErrorIsTheRoot(e.inner);
    }
  }

  lemma {:induction false} MarkedInTheChain(e: Error)
    ensures HasTerminalError(e) <==> exists i :: 0 <= i < |Chain(e)| && Chain(e)[i].TerminalError?
  {
    if e.TerminalError? {
      assert Chain(e)[0].TerminalError?;
    } else if e.Wrapped? || e.RequeueNeeded? {
      MarkedInTheChain(e.inner);
      assert forall i :: 0 < i < |Chain(e)| ==> Chain(e)[i] == Chain(e.inner)[i - 1];
      assert forall i :: 0 <= i < |Chain(e.inner)| ==> Chain(e.inner)[i] == Chain(e)[i + 1];
    }
  }

  /** Which errors no retry can cure: six codes of ACM, an unusable Secret, and whatever is marked as terminal. */
  lemma TerminalExactly(e: Error)
    ensures IsTerminal(Some(e)) <==>
      || e == SecretNotFound
      || e == SecretTypeNotSupported
      || (exists i :: 0 <= i < |Chain(e)| && Chain(e)[i].TerminalError?)
      || (&& Root(e).ApiError?
          && (|| Root(e).code == "InvalidParameterException"
              || Root(e).code == "InvalidDomainValidationOptionsException"
              || Root(e).code == "InvalidTagException"
              || Root(e).code == "TagPolicyException"
              || Root(e).code == "TooManyTagsException"
              || Root(e).code == "InvalidArnException"))
  {
    ApiErrorIsTheRoot(e);
    MarkedInTheChain(e);
  }

  function Text(e: Error): string {
    match e
    case ApiError(code, message) => code + ": " + message
    case SecretTypeNotSupported => "only opaque secrets can be used"
    case SecretNotFound => "kubernetes secret not found"
    case NotFound => "resource not found"
    case TerminalError(inner) => Text(inner)
    case Wrapped(message, _) => message
    case RequeueNeeded(inner) => Text(inner)
    case OtherError(message) => message
    case AckTerminal => "resource is in terminal condition"
  }

  function TerminalMessage(e: Error): string {
    if e == SecretTypeNotSupported || e == SecretNotFound || HasTerminalError(e) || AsApiError(e).None? then Text(e)
    else Text(AsApiError(e).value)
  }

  function RecoverableMessage(e: Error): string {
    if AsApiError(e).Some? then Text(AsApiError(e).value) else Text(e)
  }

  // ---------- Condition lists as values ----------

  /** The last condition of a type: the one the controller edits. */
  function LastOf(vs: seq<ConditionValue>, t: ConditionType): (r: Option<nat>)
    ensures r.None? <==> forall i :: 0 <= i < |vs| ==> vs[i].ctype != t
    ensures r.Some? ==> r.value < |vs| && vs[r.value].ctype == t
    ensures r.Some? ==> forall i :: r.value < i < |vs| ==> vs[i].ctype != t
  {
    if vs == [] then None
    else if vs[|vs| - 1].ctype == t then Some(|vs| - 1)
    else LastOf(vs[..|vs| - 1], t)
  }

  function Upsert(vs: seq<ConditionValue>, t: ConditionType, message: string): seq<ConditionValue> {
    match LastOf(vs, t)
    case Some(i) => vs[i := ConditionValue(t, true, Some(message))]
    case None => vs + [ConditionValue(t, true, Some(message))]
  }

  function Clear(vs: seq<ConditionValue>, t: ConditionType): seq<ConditionValue> {
    match LastOf(vs, t)
    case Some(i) => vs[i := ConditionValue(t, false, None)]
    case None => vs
  }

  function AfterError(vs: seq<ConditionValue>, err: Option<Error>): seq<ConditionValue> {
    if IsTerminal(err) then Upsert(vs, Terminal, TerminalMessage(err.value))
    else if err.Some? then Upsert(Clear(vs, Terminal), Recoverable, RecoverableMessage(err.value))
    else Clear(Clear(vs, Terminal), Recoverable)
  }

  function Updated(vs: seq<ConditionValue>, onSuccess: bool, err: Option<Error>): seq<ConditionValue> {
    var done := AfterError(vs, err);
    if onSuccess && LastOf(vs, ResourceSynced).None? then done + [ConditionValue(ResourceSynced, true, None)] else done
  }

  predicate Managed(t: ConditionType) {
    t == Terminal || t == Recoverable || t == ResourceSynced
  }

  ghost predicate Reported(vs: seq<ConditionValue>) {
    exists i :: 0 <= i < |vs| && Managed(vs[i].ctype)
  }

  // ---------- The operations ----------

  /** Where the resource manager works. */
  datatype Identity = Identity(account: string, region: string, partition: string)

  function WithDefaults(status: CertificateStatus, id: Identity): CertificateStatus {
    var m := if status.metadata.Some? then status.metadata.value else ResourceMetadata(None, None, None, None);
    status.(metadata := Some(ResourceMetadata(
      m.arn,
      m.ownerAccountID.OrElse(Some(id.account)),
      m.region.OrElse(Some(id.region)),
      m.partition.OrElse(Some(id.partition)))))
  }

  method SetStatusDefaults(ko: Certificate, id: Identity)
    modifies ko`status
    ensures ko.status == WithDefaults(old(ko.status), id)
  {
    if ko.status.metadata.None? {
      ko.status := ko.status.(metadata := Some(ResourceMetadata(None, None, None, None)));
    }
    var m := ko.status.metadata.value;
    if m.region.None? {
      m := m.(region := Some(id.region));
    }
    if m.partition.None? {
      m := m.(partition := Some(id.partition));
    }
    if m.ownerAccountID.None? {
      m := m.(ownerAccountID := Some(id.account));
    }
    ko.status := ko.status.(metadata := Some(m));
  }

  /** Account, region and partition are filled in where they are missing, and nothing else changes. */
  lemma DefaultsFillOnlyGaps(status: CertificateStatus, id: Identity)
    ensures var after := WithDefaults(status, id);
      && after.metadata.Some?
      && after == status.(metadata := after.metadata)
      && var m := after.metadata.value;
      && (status.metadata.None? ==> m == ResourceMetadata(None, Some(id.account), Some(id.region), Some(id.partition)))
      && (status.metadata.Some? ==>
           var own := status.metadata.value;
           && m.arn == own.arn
           && m.ownerAccountID == (if own.ownerAccountID.Some? then own.ownerAccountID else Some(id.account))
           && m.region == (if own.region.Some? then own.region else Some(id.region))
           && m.partition == (if own.partition.Some? then own.partition else Some(id.partition)))
  {
  }

  /** A copy to edit: the status metadata is filled in, the conditions are private. */
  method CopyWithDefaults(r: Certificate, id: Identity) returns (ko: Certificate)
    ensures fresh(ko) && ko.spec == r.spec && ko.status == WithDefaults(r.status, id)
    ensures fresh(ko.conditions) && Distinct(ko.conditions)
    ensures Values(ko.conditions) == Values(r.conditions)
  {
    ko := r.DeepCopy();
    SetStatusDefaults(ko, id);
  }

  /** The last condition of a type, as the object to edit. */
  method FindCondition(conditions: seq<Condition>, t: ConditionType) returns (found: Condition?)
    ensures found == null <==> LastOf(Values(conditions), t).None?
    ensures found != null ==> found == conditions[LastOf(Values(conditions), t).value]
  {
    found := null;
    ghost var vs := Values(conditions);
    for i := 0 to |conditions|
      invariant found == null <==> LastOf(vs[..i], t).None?
      invariant found != null ==> found == conditions[LastOf(vs[..i], t).value]
    {
      assert vs[..i + 1][..i] == vs[..i];
      if conditions[i].ctype == t {
        found := conditions[i];
      }
    }
    assert vs[..|conditions|] == vs;
  }

  method PutCondition(ko: Certificate, t: ConditionType, message: string)
    requires Distinct(ko.conditions)
    modifies ko`conditions, ko.conditions
    ensures Values(ko.conditions) == Upsert(old(Values(ko.conditions)), t, message)
    ensures Distinct(ko.conditions)
  {
    var c := FindCondition(ko.conditions, t);
    if c == null {
      c := new Condition(ConditionValue(t, false, None));
      ko.conditions := ko.conditions + [c];
    }
    c.status := true;
    c.message := Some(message);
    assert Values(ko.conditions) == Upsert(old(Values(ko.conditions)), t, message);
  }

  method ClearCondition(ko: Certificate, t: ConditionType)
    requires Distinct(ko.conditions)
    modifies ko.conditions
    ensures Values(ko.conditions) == Clear(old(Values(ko.conditions)), t)
  {
    var c := FindCondition(ko.conditions, t);
    if c != null {
      c.status := false;
      c.message := None;
    }
    assert Values(ko.conditions) == Clear(old(Values(ko.conditions)), t);
  }

  method UpdateConditions(r: Certificate, onSuccess: bool, err: Option<Error>, id: Identity)
    returns (result: Certificate?, updated: bool)
    ensures updated <==> Reported(Updated(Values(r.conditions), onSuccess, err))
    ensures updated <==> result != null
    ensures updated ==> fresh(result)
    ensures updated ==> result.spec == r.spec && result.status == WithDefaults(r.status, id)
    ensures updated ==> Values(result.conditions) == Updated(Values(r.conditions), onSuccess, err)
    ensures updated && !onSuccess && AtMostOnce(Values(r.conditions)) ==>
      (HasTrue(Values(result.conditions), ResourceSynced) <==> HasTrue(Values(r.conditions), ResourceSynced))
  {
    ghost var vs := Values(r.conditions);
    var ko := CopyWithDefaults(r, id);
    updated := EditConditions(ko, onSuccess, err);
    assert Values(r.conditions) == vs;
    if AtMostOnce(vs) {
      OneOutcome(vs, onSuccess, err);
    }
    result := if updated then ko else null;
  }

  /** `updated` tells whether the resource now has a condition the controller manages. */
  method EditConditions(ko: Certificate, onSuccess: bool, err: Option<Error>) returns (updated: bool)
    requires Distinct(ko.conditions)
    modifies ko`conditions, ko.conditions
    ensures Values(ko.conditions) == Updated(old(Values(ko.conditions)), onSuccess, err)
    ensures updated <==> Reported(Values(ko.conditions))
  {
    var syncCondition := FindCondition(ko.conditions, ResourceSynced);
    RecordError(ko, err);
    if syncCondition == null && onSuccess {
      AddSynced(ko);
    }
    updated := HasManaged(ko.conditions);
  }

  method HasManaged(conditions: seq<Condition>) returns (r: bool)
    ensures r <==> Reported(Values(conditions))
  {
    ReportedHasOne(Values(conditions));
    var terminalCondition := FindCondition(conditions, Terminal);
    var recoverableCondition := FindCondition(conditions, Recoverable);
    var syncCondition := FindCondition(conditions, ResourceSynced);
    r := terminalCondition != null || recoverableCondition != null || syncCondition != null;
  }

  method AddSynced(ko: Certificate)
    modifies ko`conditions
    ensures Values(ko.conditions) == old(Values(ko.conditions)) + [ConditionValue(ResourceSynced, true, None)]
  {
    var c := new Condition(ConditionValue(ResourceSynced, true, None));
    ko.conditions := ko.conditions + [c];
  }

  method RecordError(ko: Certificate, err: Option<Error>)
    requires Distinct(ko.conditions)
    modifies ko`conditions, ko.conditions
    ensures Values(ko.conditions) == AfterError(old(Values(ko.conditions)), err)
  {
    if IsTerminal(err) {
      PutCondition(ko, Terminal, TerminalMessage(err.value));
    } else {
      ClearCondition(ko, Terminal);
      if err.Some? {
        PutCondition(ko, Recoverable, RecoverableMessage(err.value));
      } else {
        ClearCondition(ko, Recoverable);
      }
    }
  }

  lemma ReportedHasOne(vs: seq<ConditionValue>)
    ensures Reported(vs) <==>
      LastOf(vs, Terminal).Some? || LastOf(vs, Recoverable).Some? || LastOf(vs, ResourceSynced).Some?
  {
  }

  method IsReportedTerminal(conditions: seq<Condition>) returns (terminal: bool)
    ensures terminal <==> HasTrue(Values(conditions), Terminal)
  {
    for i := 0 to |conditions|
      invariant forall j :: 0 <= j < i ==> !IsTrue(conditions[j].Value(), Terminal)
    {
      if conditions[i].ctype == Terminal && conditions[i].status {
        assert IsTrue(Values(conditions)[i], Terminal);
        return true;
      }
    }
    return false;
  }

  method OnError(r: Certificate?, err: Error, id: Identity) returns (result: Certificate?, returned: Error)
    ensures r == null ==> result == null && returned == err
    ensures r != null ==> result != null && fresh(result) && result.spec == r.spec
    ensures r != null ==> result.status == WithDefaults(r.status, id)
    ensures r != null ==> Values(result.conditions) == Updated(Values(r.conditions), false, Some(err))
    ensures r != null ==> returned == if HasTrue(Values(result.conditions), Terminal) then AckTerminal else err
  {
    if r == null {
      return null, err;
    }
    var r1, updated := UpdateConditions(r, false, Some(err), id);
    ErrorIsRecorded(Values(r.conditions), err);
    var terminal := IsReportedTerminal(r1.conditions);
    return r1, if terminal then AckTerminal else err;
  }

  method OnSuccess(r: Certificate, id: Identity) returns (result: Certificate)
    ensures result.spec == r.spec
    ensures Values(result.conditions) == Updated(Values(r.conditions), true, None)
    ensures result.status == WithDefaults(r.status, id)
    ensures fresh(result)
  {
    var r1, updated := UpdateConditions(r, true, None, id);
    SuccessIsRecorded(Values(r.conditions));
    result := r1;
  }

  /** The conditions and the error a cause of failure leads to. */
  ghost predicate Noted(before: seq<ConditionValue>, cause: Option<Error>,
                        after: seq<ConditionValue>, returned: Error) {
    && cause.Some?
    && after == Updated(before, false, cause)
    && returned == if HasTrue(after, Terminal) then AckTerminal else cause.value
  }

  // ---------- Main results ----------

  predicate IsTrue(c: ConditionValue, t: ConditionType) {
    c.ctype == t && c.status
  }

  ghost predicate HasTrue(vs: seq<ConditionValue>, t: ConditionType) {
    exists i :: 0 <= i < |vs| && IsTrue(vs[i], t)
  }

  /** Each managed type occurs at most once. */
  ghost predicate AtMostOnce(vs: seq<ConditionValue>) {
    forall i, j :: 0 <= i < j < |vs| && Managed(vs[i].ctype) ==> vs[i].ctype != vs[j].ctype
  }

  lemma ErrorIsRecorded(vs: seq<ConditionValue>, err: Error)
    ensures Reported(Updated(vs, false, Some(err)))
  {
    var t := if IsTerminal(Some(err)) then Terminal else Recoverable;
    var base := if IsTerminal(Some(err)) then vs else Clear(vs, Terminal);
    var at := if LastOf(base, t).Some? then LastOf(base, t).value else |base|;
    assert Updated(vs, false, Some(err))[at].ctype == t;
  }

  lemma SuccessIsRecorded(vs: seq<ConditionValue>)
    ensures Reported(Updated(vs, true, None))
  {
    var last := LastOf(vs, ResourceSynced);
    var at := if last.Some? then last.value else |Updated(vs, true, None)| - 1;
    assert Updated(vs, true, None)[at].ctype == ResourceSynced;
  }

  /** One reported outcome. */
  datatype Outcome = Outcome(onSuccess: bool, err: Option<Error>)

  function After(start: seq<ConditionValue>, outcomes: seq<Outcome>): seq<ConditionValue> {
    if outcomes == [] then start else
      var last := outcomes[|outcomes| - 1];
      Updated(After(start, outcomes[..|outcomes| - 1]), last.onSuccess, last.err)
  }

  /** Terminal: the last outcome was terminal. */
  ghost predicate TerminalBy(start: seq<ConditionValue>, outcomes: seq<Outcome>) {
    if outcomes == [] then HasTrue(start, Terminal) else IsTerminal(outcomes[|outcomes| - 1].err)
  }

  /** Recoverable: the most recent outcome that was not terminal was an error. */
  ghost predicate RecoverableBy(start: seq<ConditionValue>, outcomes: seq<Outcome>) {
    if outcomes == [] then HasTrue(start, Recoverable) else
      var last := outcomes[|outcomes| - 1];
      if IsTerminal(last.err) then RecoverableBy(start, outcomes[..|outcomes| - 1]) else last.err.Some?
  }

  ghost predicate SomeSuccess(outcomes: seq<Outcome>) {
    exists i :: 0 <= i < |outcomes| && outcomes[i].onSuccess
  }

  /** `now` continues `before`: nothing removed, reordered or retyped, and unmanaged conditions untouched. */
  ghost predicate Continues(before: seq<ConditionValue>, now: seq<ConditionValue>) {
    && |before| <= |now|
    && forall i :: 0 <= i < |before| ==>
      && now[i].ctype == before[i].ctype
      && (now[i].ctype != Terminal && now[i].ctype != Recoverable ==> now[i] == before[i])
  }

  lemma UpsertKeeps(vs: seq<ConditionValue>, t: ConditionType, message: string)
    requires AtMostOnce(vs) && (t == Terminal || t == Recoverable)
    ensures AtMostOnce(Upsert(vs, t, message)) && Continues(vs, Upsert(vs, t, message))
    ensures HasTrue(Upsert(vs, t, message), t)
    ensures forall u :: u != t ==> (HasTrue(Upsert(vs, t, message), u) <==> HasTrue(vs, u))
    ensures forall u :: u != t ==> LastOf(Upsert(vs, t, message), u).None? == LastOf(vs, u).None?
  {
    var now := Upsert(vs, t, message);
    var at := if LastOf(vs, t).Some? then LastOf(vs, t).value else |vs|;
    assert IsTrue(now[at], t);
    assert forall i :: 0 <= i < |vs| && i != at ==> now[i] == vs[i];
    assert at < |vs| ==> vs[at].ctype == t;
  }

  lemma ClearKeeps(vs: seq<ConditionValue>, t: ConditionType)
    requires AtMostOnce(vs) && (t == Terminal || t == Recoverable)
    ensures AtMostOnce(Clear(vs, t)) && Continues(vs, Clear(vs, t))
    ensures !HasTrue(Clear(vs, t), t)
    ensures forall u :: u != t ==> (HasTrue(Clear(vs, t), u) <==> HasTrue(vs, u))
    ensures forall u :: LastOf(Clear(vs, t), u).None? == LastOf(vs, u).None?
  {
  }

  lemma AfterErrorKeeps(vs: seq<ConditionValue>, err: Option<Error>)
    requires AtMostOnce(vs)
    ensures AtMostOnce(AfterError(vs, err)) && Continues(vs, AfterError(vs, err))
    ensures HasTrue(AfterError(vs, err), Terminal) <==> IsTerminal(err)
    ensures HasTrue(AfterError(vs, err), Recoverable) <==>
      if IsTerminal(err) then HasTrue(vs, Recoverable) else err.Some?
    ensures LastOf(AfterError(vs, err), ResourceSynced).None? == LastOf(vs, ResourceSynced).None?
    ensures HasTrue(AfterError(vs, err), ResourceSynced) <==> HasTrue(vs, ResourceSynced)
  {
    if IsTerminal(err) {
      UpsertKeeps(vs, Terminal, TerminalMessage(err.value));
    } else {
      ClearKeeps(vs, Terminal);
      if err.Some? {
        UpsertKeeps(Clear(vs, Terminal), Recoverable, RecoverableMessage(err.value));
      } else {
        ClearKeeps(Clear(vs, Terminal), Recoverable);
      }
    }
  }

  lemma SyncedKeeps(vs: seq<ConditionValue>)
    requires AtMostOnce(vs) && LastOf(vs, ResourceSynced).None?
    ensures var now := vs + [ConditionValue(ResourceSynced, true, None)];
      && AtMostOnce(now)
      && Continues(vs, now)
      && HasTrue(now, ResourceSynced)
      && forall t :: t != ResourceSynced ==> (HasTrue(now, t) <==> HasTrue(vs, t))
  {
    assert IsTrue((vs + [ConditionValue(ResourceSynced, true, None)])[|vs|], ResourceSynced);
  }

  lemma NotThereNotTrue(vs: seq<ConditionValue>)
    ensures HasTrue(vs, ResourceSynced) ==> LastOf(vs, ResourceSynced).Some?
  {
  }

  /**
   One outcome: what becomes of the two failure conditions, and what is kept. The synced condition
   is only ever added, true, by a success.
   */
  lemma OneOutcome(vs: seq<ConditionValue>, onSuccess: bool, err: Option<Error>)
    requires AtMostOnce(vs)
    ensures var now := Updated(vs, onSuccess, err);
      && AtMostOnce(now)
      && Continues(vs, now)
      && (HasTrue(now, Terminal) <==> IsTerminal(err))
      && (HasTrue(now, Recoverable) <==> if IsTerminal(err) then HasTrue(vs, Recoverable) else err.Some?)
      && (LastOf(now, ResourceSynced).None? <==> LastOf(vs, ResourceSynced).None? && !onSuccess)
      && (HasTrue(now, ResourceSynced) <==>
           HasTrue(vs, ResourceSynced) || (onSuccess && LastOf(vs, ResourceSynced).None?))
  {
    AfterErrorKeeps(vs, err);
    NotThereNotTrue(vs);
    if onSuccess && LastOf(vs, ResourceSynced).None? {
      SyncedKeeps(AfterError(vs, err));
    }
  }

  /**
   Over any history of outcomes: the conditions are a function of the history, each managed type
   occurs at most once, and no condition is ever removed or reordered.
   */
  lemma {:induction false} ConditionsTellTheHistory(start: seq<ConditionValue>, outcomes: seq<Outcome>)
    requires AtMostOnce(start)
    ensures AtMostOnce(After(start, outcomes))
    ensures Continues(start, After(start, outcomes))
    ensures HasTrue(After(start, outcomes), Terminal) <==> TerminalBy(start, outcomes)
    ensures HasTrue(After(start, outcomes), Recoverable) <==> RecoverableBy(start, outcomes)
  {
    if outcomes != [] {
      var before, last := outcomes[..|outcomes| - 1], outcomes[|outcomes| - 1];
      ConditionsTellTheHistory(start, before);
      OneOutcome(After(start, before), last.onSuccess, last.err);
    }
  }

  lemma LastOrBefore(outcomes: seq<Outcome>)
    requires outcomes != []
    ensures SomeSuccess(outcomes) <==>
      SomeSuccess(outcomes[..|outcomes| - 1]) || outcomes[|outcomes| - 1].onSuccess
  {
    var n := |outcomes| - 1;
    assert forall i :: 0 <= i < n ==> outcomes[..n][i] == outcomes[i];
  }

  /**
   Over any history, a resource is synced exactly when it was so at the start or, if that was not
   reported at all at the start, when some outcome was a success.
   */
  lemma {:induction false} SyncedTellsASuccess(start: seq<ConditionValue>, outcomes: seq<Outcome>)
    requires AtMostOnce(start)
    ensures HasTrue(After(start, outcomes), ResourceSynced) <==>
      HasTrue(start, ResourceSynced) || (LastOf(start, ResourceSynced).None? && SomeSuccess(outcomes))
    ensures LastOf(After(start, outcomes), ResourceSynced).None? <==>
      LastOf(start, ResourceSynced).None? && !SomeSuccess(outcomes)
  {
    if outcomes != [] {
      var before, last := outcomes[..|outcomes| - 1], outcomes[|outcomes| - 1];
      SyncedTellsASuccess(start, before);
      ConditionsTellTheHistory(start, before);
      OneOutcome(After(start, before), last.onSuccess, last.err);
      LastOrBefore(outcomes);
    }
  }

  /** The message shown for an error: ACM's own words where there are any, unless the error is marked as terminal. */
  ghost predicate Shows(c: ConditionValue, e: Error) {
    && c.status
    && c.message == Some(
         if Root(e).ApiError? && !(exists i :: 0 <= i < |Chain(e)| && Chain(e)[i].TerminalError?)
         then Text(Root(e)) else Text(e))
  }

  /** The two failure conditions after an outcome, value by value: set with a message, or cleared without one. */
  lemma ConditionsShowTheError(vs: seq<ConditionValue>, onSuccess: bool, err: Option<Error>, i: nat)
    requires AtMostOnce(vs) && i < |Updated(vs, onSuccess, err)|
    ensures var c := Updated(vs, onSuccess, err)[i];
      && (c.ctype == Terminal ==>
           if IsTerminal(err) then Shows(c, err.value) else c == ConditionValue(Terminal, false, None))
      && (c.ctype == Recoverable ==>
           if IsTerminal(err) then i < |vs| && c == vs[i]
           else if err.Some? then Shows(c, err.value)
           else c == ConditionValue(Recoverable, false, None))
  {
    if err.Some? {
      ApiErrorIsTheRoot(err.value);
      MarkedInTheChain(err.value);
    }
    if i < |AfterError(vs, err)| {
      FailureConditions(vs, err, i);
    }
  }

  lemma FailureConditions(vs: seq<ConditionValue>, err: Option<Error>, i: nat)
    requires AtMostOnce(vs) && i < |AfterError(vs, err)|
    ensures var c := AfterError(vs, err)[i];
      && (c.ctype == Terminal ==>
           c == if IsTerminal(err) then ConditionValue(Terminal, true, Some(TerminalMessage(err.value)))
                else ConditionValue(Terminal, false, None))
      && (c.ctype == Recoverable ==>
           if IsTerminal(err) then i < |vs| && c == vs[i]
           else c == if err.Some? then ConditionValue(Recoverable, true, Some(RecoverableMessage(err.value)))
                     else ConditionValue(Recoverable, false, None))
  {
  }

  /** `onError` reports the terminal error exactly for the errors classified as terminal. */
  lemma OnErrorIsExact(start: seq<ConditionValue>, outcomes: seq<Outcome>, err: Error)
    requires AtMostOnce(start)
    ensures HasTrue(Updated(After(start, outcomes), false, Some(err)), Terminal) <==> IsTerminal(Some(err))
  {
    ConditionsTellTheHistory(start, outcomes);
    OneOutcome(After(start, outcomes), false, Some(err));
  }
}
