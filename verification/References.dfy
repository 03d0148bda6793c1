/**
 references.go: the certificate authority a certificate may name by reference instead of by ARN.
 */
module References {
  import opened Types
  import opened Conditions
  import opened Describe

  datatype CertificateAuthority = CertificateAuthority(
    conditions: seq<ConditionValue>,
    metadata: Option<ResourceMetadata>)

  datatype ReferenceError =
    | BothARNAndReference
    | NameMissing
    | NamespaceRefused(error: Error)
    | ReadFailed(error: Error)
    | AuthorityTerminal
    | AuthorityNotSynced
    | AuthorityWithoutARN

  datatype Lookup = Found(authority: CertificateAuthority) | Missed(error: ReferenceError)

  /** Reading an authority by namespace and name. */
  type Reader = (string, string) -> Result<CertificateAuthority>

  // ---------- What resolving means ----------

  /** The authority can be used: not terminal, synced, and with an ARN. */
  ghost predicate Ready(a: CertificateAuthority) {
    && !HasTrue(a.conditions, Terminal)
    && HasTrue(a.conditions, ResourceSynced)
    && a.metadata.Some? && a.metadata.value.arn.Some?
  }

  /** The first reason why the authority cannot be used, in the order in which the reasons are looked for. */
  ghost function Looked(got: Result<CertificateAuthority>): (r: Lookup)
    ensures r.Found? <==> got.Ok? && Ready(got.value)
  {
    if got.Err? then Missed(ReadFailed(got.error))
    else if HasTrue(got.value.conditions, Terminal) then Missed(AuthorityTerminal)
    else if !HasTrue(got.value.conditions, ResourceSynced) then Missed(AuthorityNotSynced)
    else if got.value.metadata.None? || got.value.metadata.value.arn.None? then Missed(AuthorityWithoutARN)
    else Found(got.value)
  }

  predicate NamesAuthority(spec: CertificateSpec) {
    spec.certificateAuthorityRef.Some? && spec.certificateAuthorityRef.value.from.Some?
  }

  predicate BothSet(spec: CertificateSpec) {
    spec.certificateAuthorityRef.Some? && spec.certificateAuthorityARN.Some?
  }

  function Cleared(spec: CertificateSpec): CertificateSpec {
    if spec.certificateAuthorityRef.Some? then spec.(certificateAuthorityARN := None) else spec
  }

  /** The reference leads to an authority that can be used. */
  ghost predicate Resolvable(spec: CertificateSpec, namespace: Result<string>, reader: Reader) {
    && NamesAuthority(spec)
    && var reference := spec.certificateAuthorityRef.value.from.value;
    && reference.name.Some? && reference.name.value != ""
    && namespace.Ok?
    && reader(namespace.value, reference.name.value).Ok?
    && Ready(reader(namespace.value, reference.name.value).value)
  }

  /** The reason, if any, why a reference cannot be resolved. */
  ghost function ResolveError(spec: CertificateSpec, namespace: Result<string>, reader: Reader)
    : (err: Option<ReferenceError>)
    ensures err.None? <==> !NamesAuthority(spec) || Resolvable(spec, namespace, reader)
    ensures err != Some(BothARNAndReference)
  {
    if !NamesAuthority(spec) then None else
      var name := spec.certificateAuthorityRef.value.from.value.name;
      if name.None? || name.value == "" then Some(NameMissing)
      else if namespace.Err? then Some(NamespaceRefused(namespace.error))
      else match Looked(reader(namespace.value, name.value))
        case Found(_) => None
        case Missed(error) => Some(error)
  }

  /** The spec with the authority's ARN installed, if the reference can be resolved. */
  ghost function Resolved(spec: CertificateSpec, namespace: Result<string>, reader: Reader): CertificateSpec {
    if Resolvable(spec, namespace, reader) then
      spec.(certificateAuthorityARN :=
        reader(namespace.value, spec.certificateAuthorityRef.value.from.value.name.value).value.metadata.value.arn)
    else spec
  }

  // ---------- The operations ----------

  method ClearResolvedReferences(res: Certificate) returns (cleared: Certificate)
    ensures fresh(cleared) && cleared.status == res.status
    ensures cleared.spec == Cleared(res.spec)
  {
    cleared := res.DeepCopy();
    if cleared.spec.certificateAuthorityRef.Some? {
      cleared.spec := cleared.spec.(certificateAuthorityARN := None);
    }
  }

  method GetReferencedResourceState(reader: Reader, namespace: string, name: string) returns (r: Lookup)
    ensures r == Looked(reader(namespace, name))
  {
    var got := reader(namespace, name);
    if got.Err? {
      return Missed(ReadFailed(got.error));
    }
    var obj := got.value;
    for i := 0 to |obj.conditions|
      invariant forall j :: 0 <= j < i ==> !IsTrue(obj.conditions[j], Terminal)
    {
      if obj.conditions[i].ctype == Terminal && obj.conditions[i].status {
        assert IsTrue(obj.conditions[i], Terminal);
        return Missed(AuthorityTerminal);
      }
    }
    var refResourceSynced := false;
    for i := 0 to |obj.conditions|
      invariant refResourceSynced <==> exists j :: 0 <= j < i && IsTrue(obj.conditions[j], ResourceSynced)
    {
      if obj.conditions[i].ctype == ResourceSynced && obj.conditions[i].status {
        assert IsTrue(obj.conditions[i], ResourceSynced);
        refResourceSynced := true;
      }
    }
    if !refResourceSynced {
      return Missed(AuthorityNotSynced);
    }
    if obj.metadata.None? || obj.metadata.value.arn.None? {
      return Missed(AuthorityWithoutARN);
    }
    return Found(obj);
  }

  /** `namespace` is the runtime's answer to the cross-namespace question for this reference. */
  method ResolveCertificateAuthorityARN(ko: Certificate, namespace: Result<string>, reader: Reader)
    returns (hasReferences: bool, err: Option<ReferenceError>)
    modifies ko`spec
    ensures hasReferences <==> NamesAuthority(old(ko.spec))
    ensures err == ResolveError(old(ko.spec), namespace, reader)
    ensures ko.spec == Resolved(old(ko.spec), namespace, reader)
  {
    hasReferences := false;
    err := None;
    if ko.spec.certificateAuthorityRef.Some? && ko.spec.certificateAuthorityRef.value.from.Some? {
      hasReferences := true;
      var arr := ko.spec.certificateAuthorityRef.value.from.value;
      if arr.name.None? || arr.name.value == "" {
        return hasReferences, Some(NameMissing);
      }
      if namespace.Err? {
        return hasReferences, Some(NamespaceRefused(namespace.error));
      }
      var looked := GetReferencedResourceState(reader, namespace.value, arr.name.value);
      if looked.Missed? {
        return hasReferences, Some(looked.error);
      }
      ko.spec := ko.spec.(certificateAuthorityARN := looked.authority.metadata.value.arn);
    }
  }

  /** Resolves also when validation has failed; a failure to resolve is reported first. */
  method ResolveReferences(ko: Certificate, namespace: Result<string>, reader: Reader)
    returns (resourceHasReferences: bool, err: Option<ReferenceError>)
    modifies ko`spec
    ensures resourceHasReferences <==> NamesAuthority(old(ko.spec))
    ensures err.None? <==>
      !BothSet(old(ko.spec)) && (!NamesAuthority(old(ko.spec)) || Resolvable(old(ko.spec), namespace, reader))
    ensures var failed := ResolveError(old(ko.spec), namespace, reader);
      err == if failed.None? && BothSet(old(ko.spec)) then Some(BothARNAndReference) else failed
    ensures ko.spec == Resolved(old(ko.spec), namespace, reader)
  {
    var validation := if ko.spec.certificateAuthorityRef.Some? && ko.spec.certificateAuthorityARN.Some?
                      then Some(BothARNAndReference) else None;
    resourceHasReferences, err := ResolveCertificateAuthorityARN(ko, namespace, reader);
    if err.Some? {
      return;
    }
    err := validation;
  }

  // ---------- Main results ----------

  /** Clearing after resolving gives back the original spec exactly when validation passed. */
  lemma ResolveThenClear(spec: CertificateSpec, namespace: Result<string>, reader: Reader)
    ensures Cleared(Resolved(spec, namespace, reader)) == spec <==> !BothSet(spec)
  {
  }

  /** An installed ARN is that of the named authority, which was not terminal and was synced when read. */
  lemma InstalledARNIsReady(spec: CertificateSpec, namespace: Result<string>, reader: Reader)
    requires Resolved(spec, namespace, reader) != spec
    ensures Resolved(spec, namespace, reader).certificateAuthorityARN.Some?
    ensures var authority := reader(namespace.value, spec.certificateAuthorityRef.value.from.value.name.value).value;
      && !HasTrue(authority.conditions, Terminal)
      && HasTrue(authority.conditions, ResourceSynced)
      && Resolved(spec, namespace, reader).certificateAuthorityARN == authority.metadata.value.arn
  {
  }

  /** Which references resolve: a non-empty name, a namespace the runtime allows, and a usable authority there. */
  lemma ResolvesExactly(spec: CertificateSpec, namespace: Result<string>, reader: Reader)
    requires spec.certificateAuthorityRef.Some? && spec.certificateAuthorityRef.value.from.Some?
    ensures var name := spec.certificateAuthorityRef.value.from.value.name;
      ResolveError(spec, namespace, reader).None? <==>
        && name.Some? && |name.value| > 0
        && namespace.Ok?
        && var got := reader(namespace.value, name.value);
        && got.Ok?
        && (forall i :: 0 <= i < |got.value.conditions| ==>
             got.value.conditions[i].ctype == Terminal ==> !got.value.conditions[i].status)
        && (exists i :: 0 <= i < |got.value.conditions|
             && got.value.conditions[i].ctype == ResourceSynced && got.value.conditions[i].status)
        && got.value.metadata.Some? && got.value.metadata.value.arn.Some?
    ensures ResolveError(spec, namespace, reader).None? ==>
      Resolved(spec, namespace, reader) == spec.(certificateAuthorityARN :=
        reader(namespace.value, spec.certificateAuthorityRef.value.from.value.name.value).value.metadata.value.arn)
    ensures ResolveError(spec, namespace, reader).Some? ==> Resolved(spec, namespace, reader) == spec
  {
    var name := spec.certificateAuthorityRef.value.from.value.name;
    if name.Some? && namespace.Ok? && reader(namespace.value, name.value).Ok? {
      var conditions := reader(namespace.value, name.value).value.conditions;
      assert forall i :: 0 <= i < |conditions| ==>
        (IsTrue(conditions[i], Terminal) <==> conditions[i].ctype == Terminal && conditions[i].status);
      assert forall i :: 0 <= i < |conditions| ==>
        (IsTrue(conditions[i], ResourceSynced) <==> conditions[i].ctype == ResourceSynced && conditions[i].status);
    }
  }

  /** The reasons for not resolving, in the order in which they are looked for. */
  lemma FirstReasonIsReported(got: Result<CertificateAuthority>)
    requires got.Ok?
    ensures HasTrue(got.value.conditions, Terminal) ==> Looked(got) == Missed(AuthorityTerminal)
    ensures !HasTrue(got.value.conditions, Terminal) && !HasTrue(got.value.conditions, ResourceSynced) ==>
      Looked(got) == Missed(AuthorityNotSynced)
  {
  }
}
