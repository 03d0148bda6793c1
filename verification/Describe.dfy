/**
 Observation: `sdkFind` of sdk.go merges a DescribeCertificate response and a tag listing into a
 copy of the resource, and `ReadOne` of manager.go mirrors AWS tags back and reports the outcome.

 A response's enum fields are plain strings with "" for absent. The two remote answers are inputs.
 */
module Describe {
  import opened Types
  import opened Tags
  import opened Conditions

  datatype Result<+T> = Ok(value: T) | Err(error: Error)

  datatype SdkResourceRecord = SdkResourceRecord(name: Option<string>, rtype: string, value: Option<string>)

  datatype SdkValidation = SdkValidation(
    domainName: Option<string>,
    httpRedirect: Option<HTTPRedirect>,
    resourceRecord: Option<SdkResourceRecord>,
    validationDomain: Option<string>,
    validationEmails: Option<seq<string>>,
    validationMethod: string,
    validationStatus: string)

  datatype SdkExtendedKeyUsage = SdkExtendedKeyUsage(name: string, oid: Option<string>)

  datatype SdkOptions = SdkOptions(logging: string, exportable: string)

  datatype SdkRenewalSummary = SdkRenewalSummary(
    domainValidations: Option<seq<SdkValidation>>,
    renewalStatus: string,
    renewalStatusReason: string,
    updatedAt: Option<Time>)

  datatype CertificateDetail = CertificateDetail(
    arn: Option<string>,
    certificateAuthorityArn: Option<string>,
    createdAt: Option<Time>,
    domainName: Option<string>,
    domainValidations: Option<seq<SdkValidation>>,
    extendedKeyUsages: Option<seq<SdkExtendedKeyUsage>>,
    failureReason: string,
    importedAt: Option<Time>,
    inUseBy: Option<seq<string>>,
    issuedAt: Option<Time>,
    issuer: Option<string>,
    keyAlgorithm: string,
    keyUsages: Option<seq<string>>,
    managedBy: string,
    notAfter: Option<Time>,
    notBefore: Option<Time>,
    options: Option<SdkOptions>,
    renewalEligibility: string,
    renewalSummary: Option<SdkRenewalSummary>,
    revocationReason: string,
    revokedAt: Option<Time>,
    serial: Option<string>,
    signatureAlgorithm: Option<string>,
    status: string,
    subject: Option<string>,
    subjectAlternativeNames: Option<seq<string>>,
    ctype: string)

  const RESOURCE_NOT_FOUND := "ResourceNotFoundException"

  // ---------- What is observed ----------

  function Enum(s: string): Option<string> {
    if s == "" then None else Some(s)
  }

  function Each<T, U>(f: T -> U, s: Option<seq<T>>): (r: Option<seq<U>>)
    ensures r.Some? <==> s.Some?
    ensures r.Some? ==> |r.value| == |s.value| && forall i :: 0 <= i < |s.value| ==> r.value[i] == f(s.value[i])
  {
    if s.None? then None else Some(seq(|s.value|, i requires 0 <= i < |s.value| => f(s.value[i])))
  }

  function ToResourceRecord(r: Option<SdkResourceRecord>): Option<ResourceRecord> {
    if r.None? then None else Some(ResourceRecord(r.value.name, Enum(r.value.rtype), r.value.value))
  }

  /** An initial validation: no redirect, and no list of e-mails where the response's is empty. */
  function ToInitialValidation(v: SdkValidation): DomainValidation {
    DomainValidation(v.domainName, None, ToResourceRecord(v.resourceRecord), v.validationDomain,
                     if v.validationEmails == Some([]) then None else v.validationEmails,
                     Enum(v.validationMethod), Enum(v.validationStatus))
  }

  function ToRenewalValidation(v: SdkValidation): DomainValidation {
    DomainValidation(v.domainName, v.httpRedirect, ToResourceRecord(v.resourceRecord), v.validationDomain,
                     v.validationEmails, Enum(v.validationMethod), Enum(v.validationStatus))
  }

  function ToValidationOption(v: SdkValidation): DomainValidationOption {
    DomainValidationOption(v.domainName, v.validationDomain)
  }

  function ToExtendedKeyUsage(u: SdkExtendedKeyUsage): ExtendedKeyUsage {
    ExtendedKeyUsage(Enum(u.name), u.oid)
  }

  function ToOptions(o: Option<SdkOptions>): Option<CertificateOptions> {
    if o.None? then None else Some(CertificateOptions(Enum(o.value.logging), Enum(o.value.exportable)))
  }

  function ToRenewalSummary(r: Option<SdkRenewalSummary>): Option<RenewalSummary> {
    if r.None? then None else
      Some(RenewalSummary(Each(ToRenewalValidation, r.value.domainValidations), Enum(r.value.renewalStatus),
                          Enum(r.value.renewalStatusReason), r.value.updatedAt))
  }

  function ObservedSpec(spec: CertificateSpec, d: CertificateDetail, tags: seq<Tag>): CertificateSpec {
    spec.(certificateAuthorityARN := d.certificateAuthorityArn,
          domainName := d.domainName,
          domainValidationOptions := Each(ToValidationOption, d.domainValidations),
          keyAlgorithm := Enum(d.keyAlgorithm),
          managedBy := Enum(d.managedBy),
          options := ToOptions(d.options),
          subjectAlternativeNames := d.subjectAlternativeNames,
          tags := tags)
  }

  /** The metadata: the response's ARN where it has one, otherwise the one asked with. */
  function ObservedMetadata(m: Option<ResourceMetadata>, arn: Option<string>): ResourceMetadata {
    var known := if m.Some? then m.value else ResourceMetadata(None, None, None, None);
    known.(arn := arn.OrElse(known.arn))
  }

  function ObservedStatus(status: CertificateStatus, d: CertificateDetail): CertificateStatus {
    CertificateStatus(
      Some(ObservedMetadata(status.metadata, d.arn)),
      d.createdAt,
      Each(ToInitialValidation, d.domainValidations),
      Each(ToExtendedKeyUsage, d.extendedKeyUsages),
      Enum(d.failureReason),
      d.importedAt,
      d.inUseBy,
      d.issuedAt,
      d.issuer,
      Each(Enum, d.keyUsages),
      d.notAfter,
      d.notBefore,
      Enum(d.renewalEligibility),
      ToRenewalSummary(d.renewalSummary),
      Enum(d.revocationReason),
      d.revokedAt,
      d.serial,
      d.signatureAlgorithm,
      Enum(d.status),
      d.subject,
      Enum(d.ctype))
  }

  function Observe(r: Snapshot, d: CertificateDetail, tags: seq<Tag>, id: Identity): Snapshot {
    Snapshot(ObservedSpec(r.spec, d, tags), WithDefaults(ObservedStatus(r.status, d), id))
  }

  // ---------- The operations ----------

  method ConvertResourceRecord(r: SdkResourceRecord) returns (record: ResourceRecord)
    ensures Some(record) == ToResourceRecord(Some(r))
  {
    record := ResourceRecord(None, None, None);
    if r.name.Some? {
      record := record.(name := r.name);
    }
    if r.rtype != "" {
      record := record.(rtype := Some(r.rtype));
    }
    if r.value.Some? {
      record := record.(value := r.value);
    }
  }

  method ConvertInitialValidations(vs: seq<SdkValidation>) returns (dvs: seq<DomainValidation>)
    ensures Some(dvs) == Each(ToInitialValidation, Some(vs))
  {
    dvs := [];
    for i := 0 to |vs|
      invariant |dvs| == i && forall j :: 0 <= j < i ==> dvs[j] == ToInitialValidation(vs[j])
    {
      var elem := DomainValidation(None, None, None, None, None, None, None);
      if vs[i].domainName.Some? {
        elem := elem.(domainName := vs[i].domainName);
      }
      if vs[i].resourceRecord.Some? {
        var record := ConvertResourceRecord(vs[i].resourceRecord.value);
        elem := elem.(resourceRecord := Some(record));
      }
      if vs[i].validationDomain.Some? {
        elem := elem.(validationDomain := vs[i].validationDomain);
      }
      var emails := if vs[i].validationEmails.Some? then vs[i].validationEmails.value else [];
      var collected: Option<seq<string>> := None;
      for e := 0 to |emails|
        invariant collected == if e == 0 then None else Some(emails[..e])
      {
        collected := Some((if collected.Some? then collected.value else []) + [emails[e]]);
        assert emails[..e + 1] == emails[..e] + [emails[e]];
      }
      assert emails[..|emails|] == emails;
      elem := elem.(validationEmails := collected);
      if vs[i].validationMethod != "" {
        elem := elem.(validationMethod := Some(vs[i].validationMethod));
      }
      if vs[i].validationStatus != "" {
        elem := elem.(validationStatus := Some(vs[i].validationStatus));
      }
      dvs := dvs + [elem];
    }
    assert dvs == Each(ToInitialValidation, Some(vs)).value;
  }

  method ConvertRenewalValidations(vs: seq<SdkValidation>) returns (dvs: seq<DomainValidation>)
    ensures Some(dvs) == Each(ToRenewalValidation, Some(vs))
  {
    dvs := [];
    for i := 0 to |vs|
      invariant |dvs| == i && forall j :: 0 <= j < i ==> dvs[j] == ToRenewalValidation(vs[j])
    {
      var elem := DomainValidation(vs[i].domainName, vs[i].httpRedirect, None, vs[i].validationDomain,
                                   vs[i].validationEmails, None, None);
      if vs[i].resourceRecord.Some? {
        var record := ConvertResourceRecord(vs[i].resourceRecord.value);
        elem := elem.(resourceRecord := Some(record));
      }
      if vs[i].validationMethod != "" {
        elem := elem.(validationMethod := Some(vs[i].validationMethod));
      }
      if vs[i].validationStatus != "" {
        elem := elem.(validationStatus := Some(vs[i].validationStatus));
      }
      dvs := dvs + [elem];
    }
    assert dvs == Each(ToRenewalValidation, Some(vs)).value;
  }

  method ConvertValidationOptions(vs: seq<SdkValidation>) returns (options: seq<DomainValidationOption>)
    ensures Some(options) == Each(ToValidationOption, Some(vs))
  {
    options := [];
    for i := 0 to |vs|
      invariant |options| == i && forall j :: 0 <= j < i ==> options[j] == ToValidationOption(vs[j])
    {
      options := options + [DomainValidationOption(vs[i].domainName, vs[i].validationDomain)];
    }
    assert options == Each(ToValidationOption, Some(vs)).value;
  }

  method ConvertExtendedKeyUsages(us: seq<SdkExtendedKeyUsage>) returns (usages: seq<ExtendedKeyUsage>)
    ensures Some(usages) == Each(ToExtendedKeyUsage, Some(us))
  {
    usages := [];
    for i := 0 to |us|
      invariant |usages| == i && forall j :: 0 <= j < i ==> usages[j] == ToExtendedKeyUsage(us[j])
    {
      var elem := ExtendedKeyUsage(None, us[i].oid);
      if us[i].name != "" {
        elem := elem.(name := Some(us[i].name));
      }
      usages := usages + [elem];
    }
    assert usages == Each(ToExtendedKeyUsage, Some(us)).value;
  }

  method ConvertKeyUsages(us: seq<string>) returns (usages: seq<Option<string>>)
    ensures Some(usages) == Each(Enum, Some(us))
  {
    usages := [];
    for i := 0 to |us|
      invariant |usages| == i && forall j :: 0 <= j < i ==> usages[j] == Enum(us[j])
    {
      usages := usages + [if us[i] != "" then Some(us[i]) else None];
    }
    assert usages == Each(Enum, Some(us)).value;
  }

  method SetSpecFromDetail(ko: Certificate, d: CertificateDetail)
    modifies ko`spec
    ensures ko.spec == ObservedSpec(old(ko.spec), d, old(ko.spec.tags))
  {
    ko.spec := ko.spec.(certificateAuthorityARN := d.certificateAuthorityArn, domainName := d.domainName);
    if d.domainValidations.Some? {
      var options := ConvertValidationOptions(d.domainValidations.value);
      ko.spec := ko.spec.(domainValidationOptions := Some(options));
    } else {
      ko.spec := ko.spec.(domainValidationOptions := None);
    }
    ko.spec := ko.spec.(keyAlgorithm := Enum(d.keyAlgorithm), managedBy := Enum(d.managedBy));
    if d.options.Some? {
      var o := CertificateOptions(None, None);
      if d.options.value.logging != "" {
        o := o.(logging := Some(d.options.value.logging));
      }
      if d.options.value.exportable != "" {
        o := o.(exportable := Some(d.options.value.exportable));
      }
      ko.spec := ko.spec.(options := Some(o));
    } else {
      ko.spec := ko.spec.(options := None);
    }
    ko.spec := ko.spec.(subjectAlternativeNames := d.subjectAlternativeNames);
  }

  method SetListsFromDetail(ko: Certificate, d: CertificateDetail)
    modifies ko`status
    ensures ko.status == old(ko.status).(
      domainValidations := Each(ToInitialValidation, d.domainValidations),
      extendedKeyUsages := Each(ToExtendedKeyUsage, d.extendedKeyUsages),
      keyUsages := Each(Enum, d.keyUsages),
      renewalSummary := ToRenewalSummary(d.renewalSummary))
  {
    if d.domainValidations.Some? {
      var dvs := ConvertInitialValidations(d.domainValidations.value);
      ko.status := ko.status.(domainValidations := Some(dvs));
    } else {
      ko.status := ko.status.(domainValidations := None);
    }
    if d.extendedKeyUsages.Some? {
      var usages := ConvertExtendedKeyUsages(d.extendedKeyUsages.value);
      ko.status := ko.status.(extendedKeyUsages := Some(usages));
    } else {
      ko.status := ko.status.(extendedKeyUsages := None);
    }
    if d.keyUsages.Some? {
      var usages := ConvertKeyUsages(d.keyUsages.value);
      ko.status := ko.status.(keyUsages := Some(usages));
    } else {
      ko.status := ko.status.(keyUsages := None);
    }
    if d.renewalSummary.Some? {
      var s := d.renewalSummary.value;
      var summary := RenewalSummary(None, None, None, s.updatedAt);
      if s.domainValidations.Some? {
        var dvs := ConvertRenewalValidations(s.domainValidations.value);
        summary := summary.(domainValidations := Some(dvs));
      }
      if s.renewalStatus != "" {
        summary := summary.(renewalStatus := Some(s.renewalStatus));
      }
      if s.renewalStatusReason != "" {
        summary := summary.(renewalStatusReason := Some(s.renewalStatusReason));
      }
      ko.status := ko.status.(renewalSummary := Some(summary));
    } else {
      ko.status := ko.status.(renewalSummary := None);
    }
  }

  method SetStatusFromDetail(ko: Certificate, d: CertificateDetail)
    modifies ko`status
    ensures ko.status == ObservedStatus(old(ko.status), d)
  {
    SetListsFromDetail(ko, d);
    if ko.status.metadata.None? {
      ko.status := ko.status.(metadata := Some(ResourceMetadata(None, None, None, None)));
    }
    if d.arn.Some? {
      ko.status := ko.status.(metadata := Some(ko.status.metadata.value.(arn := d.arn)));
    }
    ko.status := ko.status.(
      createdAt := d.createdAt, importedAt := d.importedAt, issuedAt := d.issuedAt, notAfter := d.notAfter,
      notBefore := d.notBefore, revokedAt := d.revokedAt);
    ko.status := ko.status.(
      failureReason := Enum(d.failureReason), renewalEligibility := Enum(d.renewalEligibility),
      revocationReason := Enum(d.revocationReason), status := Enum(d.status), ctype := Enum(d.ctype));
    ko.status := ko.status.(
      inUseBy := d.inUseBy, issuer := d.issuer, serial := d.serial,
      signatureAlgorithm := d.signatureAlgorithm, subject := d.subject);
  }

  /** The answer of ACM for a certificate that does not exist, possibly wrapped. */
  predicate SaysNotFound(e: Error) {
    Root(e).ApiError? && Root(e).code == "ResourceNotFoundException"
  }

  /** The outcome of asking for a resource's certificate and its tags. */
  function FindError(r: Snapshot, described: Result<CertificateDetail>, listed: Result<seq<Tag>>): Option<Error> {
    if !r.status.HasARN() then Some(NotFound)
    else if described.Err? then
      var api := AsApiError(described.error);
      if api.Some? && api.value.ApiError? && api.value.code == RESOURCE_NOT_FOUND then Some(NotFound)
      else Some(described.error)
    else if listed.Err? then Some(listed.error)
    else None
  }

  /**
   A certificate counts as missing, and is then created, exactly when none is named, ACM says that
   there is none, or one of the two calls reports just that; any other failure is reported as it is.
   */
  lemma NotFoundExactly(r: Snapshot, described: Result<CertificateDetail>, listed: Result<seq<Tag>>)
    ensures var err := FindError(r, described, listed);
      && (err == Some(NotFound) <==>
           || r.status.metadata.None?
           || r.status.metadata.value.arn.None?
           || (described.Err? && (described.error == NotFound || SaysNotFound(described.error)))
           || (described.Ok? && listed == Err(NotFound)))
      && (err.Some? && err != Some(NotFound) ==>
           err == if described.Err? then Some(described.error) else Some(listed.error))
      && (err.None? <==> r.status.HasARN() && described.Ok? && listed.Ok?)
  {
    if described.Err? {
      ApiErrorIsTheRoot(described.error);
    }
  }

  method SdkFind(r: Certificate, described: Result<CertificateDetail>, listed: Result<seq<Tag>>, id: Identity)
    returns (latest: Certificate?, err: Option<Error>)
    ensures err == FindError(r.Value(), described, listed)
    ensures err == Some(NotFound) <==>
      || !r.status.HasARN()
      || (described.Err? && (described.error == NotFound || SaysNotFound(described.error)))
      || (described.Ok? && listed == Err(NotFound))
    ensures latest == null <==> err.Some?
    ensures latest != null ==> fresh(latest) && Values(latest.conditions) == Values(r.conditions)
    ensures latest != null ==> latest.Value() == Observe(r.Value(), described.value, listed.value, id)
  {
    NotFoundExactly(r.Value(), described, listed);
    if r.status.metadata.None? || r.status.metadata.value.arn.None? {
      return null, Some(NotFound);
    }
    if described.Err? {
      var api := AsApiError(described.error);
      if api.Some? && api.value.ApiError? && api.value.code == RESOURCE_NOT_FOUND {
        return null, Some(NotFound);
      }
      return null, Some(described.error);
    }
    var ko := r.DeepCopy();
    if listed.Err? {
      return null, Some(listed.error);
    }
    ko.spec := ko.spec.(tags := listed.value);
    SetSpecFromDetail(ko, described.value);
    SetStatusFromDetail(ko, described.value);
    SetStatusDefaults(ko, id);
    return ko, None;
  }

  /** A successful find also puts the observed AWS tags into the resource it was asked with. */
  method FindAndMirror(r: Certificate, described: Result<CertificateDetail>, listed: Result<seq<Tag>>, id: Identity)
    returns (observed: Certificate?, findErr: Option<Error>)
    modifies r
    ensures r.status == old(r.status) && r.conditions == old(r.conditions)
    ensures r.spec == old(r.spec).(tags := r.spec.tags)
    ensures findErr == FindError(old(r.Value()), described, listed)
    ensures findErr.Some? ==> r.spec == old(r.spec)
    ensures observed == null <==> findErr.Some?
    ensures observed != null ==> fresh(observed) && Values(observed.conditions) == old(Values(r.conditions))
    ensures observed != null ==> observed.Value() == Observe(old(r.Value()), described.value, listed.value, id)
    ensures observed != null ==>
      Lists(r.spec.tags, WithAWSOf(Denote(old(r.spec.tags)), Denote(listed.value)), KeyOrder(old(r.spec.tags)))
  {
    observed, findErr := SdkFind(r, described, listed, id);
    MirrorAWSTags(r, observed);
  }

  method ReadOne(r: Certificate, described: Result<CertificateDetail>, listed: Result<seq<Tag>>, id: Identity)
    returns (result: Certificate?, err: Option<Error>)
    modifies r
    ensures r.status == old(r.status) && r.conditions == old(r.conditions)
    ensures r.spec == old(r.spec).(tags := r.spec.tags)
    ensures FindError(old(r.Value()), described, listed).None? <==> err.None?
    ensures err.Some? ==> r.spec == old(r.spec)
    ensures result != null && fresh(result)
    ensures err.Some? ==> result.spec == old(r.spec) && result.status == WithDefaults(old(r.status), id)
    ensures err.Some? ==>
      Noted(old(Values(r.conditions)), FindError(old(r.Value()), described, listed),
            Values(result.conditions), err.value)
    ensures err.None? ==> result.Value() == Observe(old(r.Value()), described.value, listed.value, id)
    ensures err.None? ==> Values(result.conditions) == Updated(old(Values(r.conditions)), true, None)
    ensures err.None? ==>
      Lists(r.spec.tags, WithAWSOf(Denote(old(r.spec.tags)), Denote(listed.value)), KeyOrder(old(r.spec.tags)))
  {
    ghost var before := r.Value();
    var observed, findErr := FindAndMirror(r, described, listed, id);
    if findErr.Some? {
      var failed, returned := OnError(r, findErr.value, id);
      return failed, Some(returned);
    }
    result := OnSuccess(observed, id);
    err := None;
    ObservedTwice(before, described.value, listed.value, id);
  }

  // ---------- Main results ----------

  lemma ObservedTwice(r: Snapshot, d: CertificateDetail, tags: seq<Tag>, id: Identity)
    ensures WithDefaults(Observe(r, d, tags, id).status, id) == Observe(r, d, tags, id).status
  {
  }

  /** With ACM unchanged and echoing the ARN, observing the observation changes nothing and asks the same. */
  lemma ObservationIsIdempotent(r: Snapshot, d: CertificateDetail, tags: seq<Tag>, id: Identity)
    requires r.status.HasARN()
    requires d.arn.Some? ==> d.arn == r.status.metadata.value.arn
    ensures var once := Observe(r, d, tags, id);
      && Observe(once, d, tags, id) == once
      && once.status.HasARN()
      && once.status.metadata.value.arn == r.status.metadata.value.arn
  {
  }

  /** The metadata a resource has before it is observed. */
  function Known(r: Snapshot): ResourceMetadata {
    r.status.metadata.OrElse(Some(ResourceMetadata(None, None, None, None))).value
  }

  /**
   Nothing stale survives: two resources are observed alike exactly when they agree on what the
   response does not carry: the user's import, export and reference fields, the ARN unless the
   response has one, and account, region and partition after defaulting.
   */
  lemma ObservationForgets(r: Snapshot, s: Snapshot, d: CertificateDetail, tags: seq<Tag>, id: Identity)
    ensures Observe(r, d, tags, id) == Observe(s, d, tags, id) <==>
      (&& r.spec.certificate == s.spec.certificate
       && r.spec.certificateARN == s.spec.certificateARN
       && r.spec.certificateAuthorityRef == s.spec.certificateAuthorityRef
       && r.spec.certificateChain == s.spec.certificateChain
       && r.spec.exportTo == s.spec.exportTo
       && r.spec.privateKey == s.spec.privateKey
       && (d.arn.None? ==> Known(r).arn == Known(s).arn)
       && Known(r).ownerAccountID.OrElse(Some(id.account)) == Known(s).ownerAccountID.OrElse(Some(id.account))
       && Known(r).region.OrElse(Some(id.region)) == Known(s).region.OrElse(Some(id.region))
       && Known(r).partition.OrElse(Some(id.partition)) == Known(s).partition.OrElse(Some(id.partition)))
  {
  }

  /** The part of a response an observation keeps: all but two details of its validations, and its ARN. */
  function Visible(d: CertificateDetail): CertificateDetail {
    d.(arn := None, domainValidations := Each(VisibleValidation, d.domainValidations))
  }

  function VisibleValidation(v: SdkValidation): SdkValidation {
    v.(httpRedirect := None, validationEmails := if v.validationEmails == Some([]) then None else v.validationEmails)
  }

  // ---------- The response read back from the observation ----------

  function OrEmpty(o: Option<string>): string {
    if o.Some? then o.value else ""
  }

  function FromResourceRecord(r: Option<ResourceRecord>): Option<SdkResourceRecord> {
    if r.None? then None else Some(SdkResourceRecord(r.value.name, OrEmpty(r.value.rtype), r.value.value))
  }

  function FromValidation(v: DomainValidation): SdkValidation {
    SdkValidation(v.domainName, v.httpRedirect, FromResourceRecord(v.resourceRecord), v.validationDomain,
                  v.validationEmails, OrEmpty(v.validationMethod), OrEmpty(v.validationStatus))
  }

  function FromExtendedKeyUsage(u: ExtendedKeyUsage): SdkExtendedKeyUsage {
    SdkExtendedKeyUsage(OrEmpty(u.name), u.oid)
  }

  function FromOptions(o: Option<CertificateOptions>): Option<SdkOptions> {
    if o.None? then None else Some(SdkOptions(OrEmpty(o.value.logging), OrEmpty(o.value.exportable)))
  }

  function FromRenewalSummary(r: Option<RenewalSummary>): Option<SdkRenewalSummary> {
    if r.None? then None else
      Some(SdkRenewalSummary(Each(FromValidation, r.value.domainValidations), OrEmpty(r.value.renewalStatus),
                             OrEmpty(r.value.renewalStatusReason), r.value.updatedAt))
  }

  /** Each field of a response from the field of the resource that shows it. */
  function ResponseShown(o: Snapshot): CertificateDetail {
    CertificateDetail(
      arn := None,
      certificateAuthorityArn := o.spec.certificateAuthorityARN,
      createdAt := o.status.createdAt,
      domainName := o.spec.domainName,
      domainValidations := Each(FromValidation, o.status.domainValidations),
      extendedKeyUsages := Each(FromExtendedKeyUsage, o.status.extendedKeyUsages),
      failureReason := OrEmpty(o.status.failureReason),
      importedAt := o.status.importedAt,
      inUseBy := o.status.inUseBy,
      issuedAt := o.status.issuedAt,
      issuer := o.status.issuer,
      keyAlgorithm := OrEmpty(o.spec.keyAlgorithm),
      keyUsages := Each(OrEmpty, o.status.keyUsages),
      managedBy := OrEmpty(o.spec.managedBy),
      notAfter := o.status.notAfter,
      notBefore := o.status.notBefore,
      options := FromOptions(o.spec.options),
      renewalEligibility := OrEmpty(o.status.renewalEligibility),
      renewalSummary := FromRenewalSummary(o.status.renewalSummary),
      revocationReason := OrEmpty(o.status.revocationReason),
      revokedAt := o.status.revokedAt,
      serial := o.status.serial,
      signatureAlgorithm := o.status.signatureAlgorithm,
      status := OrEmpty(o.status.status),
      subject := o.status.subject,
      subjectAlternativeNames := o.spec.subjectAlternativeNames,
      ctype := OrEmpty(o.status.ctype))
  }

  lemma EachThenEach<T(!new), U, V>(f: T -> U, g: U -> V, h: T -> V, s: Option<seq<T>>)
    requires forall x :: g(f(x)) == h(x)
    ensures Each(g, Each(f, s)) == Each(h, s)
  {
    if s.Some? {
      assert Each(g, Each(f, s)).value == Each(h, s).value;
    }
  }

  lemma EachIdentity<T(!new), U>(f: T -> U, g: U -> T, s: Option<seq<T>>)
    requires forall x :: g(f(x)) == x
    ensures Each(g, Each(f, s)) == s
  {
    if s.Some? {
      assert Each(g, Each(f, s)).value == s.value;
    }
  }

  lemma SummaryIsShown(s: Option<SdkRenewalSummary>)
    ensures FromRenewalSummary(ToRenewalSummary(s)) == s
  {
    if s.Some? {
      EachIdentity(ToRenewalValidation, FromValidation, s.value.domainValidations);
    }
  }

  /** The listed tags are shown, the ARN is the response's if it has one, and what no response carries stays. */
  lemma ObservationKeepsTheRest(r: Snapshot, d: CertificateDetail, tags: seq<Tag>, id: Identity)
    ensures var o := Observe(r, d, tags, id);
      && o.spec.tags == tags
      && (d.arn.Some? ==> o.status.metadata.value.arn == d.arn)
      && (d.arn.None? && r.status.metadata.Some? ==> o.status.metadata.value.arn == r.status.metadata.value.arn)
      && o.spec.certificate == r.spec.certificate
      && o.spec.certificateARN == r.spec.certificateARN
      && o.spec.certificateAuthorityRef == r.spec.certificateAuthorityRef
      && o.spec.certificateChain == r.spec.certificateChain
      && o.spec.exportTo == r.spec.exportTo
      && o.spec.privateKey == r.spec.privateKey
  {
  }

  /**
   Every field of a response is shown where it belongs: the response can be read back from the
   observation, up to the ARN, the redirects and the empty e-mail lists of initial validations.
   */
  lemma ResponseCanBeReadBack(r: Snapshot, d: CertificateDetail, tags: seq<Tag>, id: Identity)
    ensures ResponseShown(Observe(r, d, tags, id)) == Visible(d)
  {
    EachThenEach(ToInitialValidation, FromValidation, VisibleValidation, d.domainValidations);
    EachIdentity(ToExtendedKeyUsage, FromExtendedKeyUsage, d.extendedKeyUsages);
    EachIdentity(Enum, OrEmpty, d.keyUsages);
    SummaryIsShown(d.renewalSummary);
  }

  /** Converting element by element with `f` shows as much as with `g`, if `f` shows as much as `g`. */
  lemma EachShows<T(!new), U, V>(f: T -> U, g: T -> V, s: Option<seq<T>>, t: Option<seq<T>>)
    requires forall x, y :: f(x) == f(y) ==> g(x) == g(y)
    requires Each(f, s) == Each(f, t)
    ensures Each(g, s) == Each(g, t)
  {
    if s.Some? {
      var a, b := Each(f, s).value, Each(f, t).value;
      forall i | 0 <= i < |a|
        ensures Each(g, s).value[i] == Each(g, t).value[i]
      {
        assert a[i] == f(s.value[i]) && b[i] == f(t.value[i]);
      }
      assert Each(g, s).value == Each(g, t).value;
    }
  }

  lemma EachIsInjective<T(!new), U>(f: T -> U, s: Option<seq<T>>, t: Option<seq<T>>)
    requires forall x, y :: f(x) == f(y) ==> x == y
    requires Each(f, s) == Each(f, t)
    ensures s == t
  {
    if s.Some? {
      var a, b := Each(f, s).value, Each(f, t).value;
      forall i | 0 <= i < |a|
        ensures s.value[i] == t.value[i]
      {
        assert a[i] == f(s.value[i]) && b[i] == f(t.value[i]);
      }
      assert s.value == t.value;
    }
  }

  lemma AlikeStatusAlikeMetadata(s: CertificateStatus, t: CertificateStatus, id: Identity)
    requires WithDefaults(s, id) == WithDefaults(t, id)
    ensures s.(metadata := None) == t.(metadata := None)
  {
  }

  lemma AlikeShowsVisible(r: Snapshot, d: CertificateDetail, e: CertificateDetail, tags: seq<Tag>, id: Identity)
    requires Observe(r, d, tags, id) == Observe(r, e, tags, id)
    ensures Visible(d) == Visible(e)
    ensures ObservedMetadata(r.status.metadata, d.arn).arn == ObservedMetadata(r.status.metadata, e.arn).arn
  {
    SpecShows(r.spec, d, e, tags);
    AlikeStatusAlikeMetadata(ObservedStatus(r.status, d), ObservedStatus(r.status, e), id);
    StatusShows(r.status, d, e);
  }

  lemma StatusShows(status: CertificateStatus, d: CertificateDetail, e: CertificateDetail)
    requires ObservedStatus(status, d).(metadata := None) == ObservedStatus(status, e).(metadata := None)
    ensures Each(VisibleValidation, d.domainValidations) == Each(VisibleValidation, e.domainValidations)
    ensures d == e.(arn := d.arn, certificateAuthorityArn := d.certificateAuthorityArn, domainName := d.domainName,
                    domainValidations := d.domainValidations, keyAlgorithm := d.keyAlgorithm,
                    managedBy := d.managedBy, options := d.options,
                    subjectAlternativeNames := d.subjectAlternativeNames)
  {
    EachShows(ToInitialValidation, VisibleValidation, d.domainValidations, e.domainValidations);
    EachIsInjective(ToExtendedKeyUsage, d.extendedKeyUsages, e.extendedKeyUsages);
    EachIsInjective(Enum, d.keyUsages, e.keyUsages);
    RenewalSummaryShows(d.renewalSummary, e.renewalSummary);
  }

  lemma VisibleMakesAlike(r: Snapshot, d: CertificateDetail, e: CertificateDetail, tags: seq<Tag>, id: Identity)
    requires Visible(d) == Visible(e)
    requires ObservedMetadata(r.status.metadata, d.arn).arn == ObservedMetadata(r.status.metadata, e.arn).arn
    ensures Observe(r, d, tags, id) == Observe(r, e, tags, id)
  {
    EachShows(VisibleValidation, ToInitialValidation, d.domainValidations, e.domainValidations);
    EachShows(VisibleValidation, ToValidationOption, d.domainValidations, e.domainValidations);
  }

  /**
   Nothing of a response is lost: two responses are observed alike exactly when they differ at most
   in a redirect or an empty e-mail list of an initial validation and yield the same ARN.
   */
  lemma ObservationIsFaithful(r: Snapshot, d: CertificateDetail, e: CertificateDetail, tags: seq<Tag>, id: Identity)
    ensures Observe(r, d, tags, id) == Observe(r, e, tags, id) <==>
      (&& Visible(d) == Visible(e)
       && ObservedMetadata(r.status.metadata, d.arn).arn == ObservedMetadata(r.status.metadata, e.arn).arn)
  {
    if Observe(r, d, tags, id) == Observe(r, e, tags, id) {
      AlikeShowsVisible(r, d, e, tags, id);
    } else if Visible(d) == Visible(e)
      && ObservedMetadata(r.status.metadata, d.arn).arn == ObservedMetadata(r.status.metadata, e.arn).arn {
      VisibleMakesAlike(r, d, e, tags, id);
    }
  }

  lemma RenewalSummaryShows(s: Option<SdkRenewalSummary>, t: Option<SdkRenewalSummary>)
    requires ToRenewalSummary(s) == ToRenewalSummary(t)
    ensures s == t
  {
    if s.Some? {
      EachIsInjective(ToRenewalValidation, s.value.domainValidations, t.value.domainValidations);
    }
  }

  lemma SpecShows(spec: CertificateSpec, d: CertificateDetail, e: CertificateDetail, tags: seq<Tag>)
    requires ObservedSpec(spec, d, tags) == ObservedSpec(spec, e, tags)
    ensures d.certificateAuthorityArn == e.certificateAuthorityArn && d.domainName == e.domainName
    ensures d.keyAlgorithm == e.keyAlgorithm && d.managedBy == e.managedBy && d.options == e.options
    ensures d.subjectAlternativeNames == e.subjectAlternativeNames
  {
  }

  /** Validations in the status and validation options in the spec are aligned element by element. */
  lemma ValidationsAreAligned(r: Snapshot, d: CertificateDetail, tags: seq<Tag>, id: Identity)
    ensures var o := Observe(r, d, tags, id);
      && o.status.domainValidations.Some? == o.spec.domainValidationOptions.Some?
      && (o.status.domainValidations.Some? ==>
        var vs, os := o.status.domainValidations.value, o.spec.domainValidationOptions.value;
        && |vs| == |os|
        && forall i :: 0 <= i < |vs| ==>
          vs[i].domainName == os[i].domainName && vs[i].validationDomain == os[i].validationDomain)
  {
  }
}
