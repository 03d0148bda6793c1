/**
 Creation: `sdkCreate` and `newCreateRequestPayload` of sdk.go, the import path of hooks.go, and
 what a requested or imported certificate looks like when it is next observed.
 */
module Create {
  import opened Types
  import opened Tags
  import opened Conditions
  import opened Describe
  import opened Delta
  import opened LateInit

  datatype CreateRequest = CreateRequest(
    certificateAuthorityArn: Option<string>,
    domainName: Option<string>,
    domainValidationOptions: Option<seq<DomainValidationOption>>,
    keyAlgorithm: string,
    managedBy: string,
    options: Option<SdkOptions>,
    subjectAlternativeNames: Option<seq<string>>,
    tags: seq<Tag>,
    validationMethod: string)

  datatype ImportRequest = ImportRequest(
    certificateArn: Option<string>,
    certificate: string,
    certificateChain: string,
    privateKey: string,
    tags: seq<Tag>)

  const ENABLED := "ENABLED"
  const MAX_VALIDATION_OPTIONS := 5
  const REQUEST_FIELDS_ON_IMPORT := TerminalError(OtherError(
    "cannot set fields used for requesting a certificate when importing a certificate"))
  const IMPORT_FIELDS_ON_REQUEST := TerminalError(OtherError(
    "cannot set fields used for importing a certificate when requesting a certificate"))
  const PRIVATE_KEY_REQUIRED := TerminalError(OtherError("privateKey is required when importing a certificate"))
  const TOO_MANY_OPTIONS := TerminalError(OtherError("Too many domain validation errors"))

  // ---------- The request ----------

  function Sent(o: Option<string>): string {
    if o.Some? then o.value else ""
  }

  /** A public certificate that is to be exported is requested as exportable. */
  predicate ForcesExport(spec: CertificateSpec) {
    spec.exportTo.Some? && spec.certificateAuthorityARN.None? && spec.certificateAuthorityRef.None?
  }

  function RequestedOptions(spec: CertificateSpec): Option<SdkOptions> {
    if ForcesExport(spec) then Some(SdkOptions(Sent(LoggingOf(spec.options)), ENABLED))
    else if spec.options.None? then None
    else Some(SdkOptions(Sent(spec.options.value.logging), Sent(spec.options.value.exportable)))
  }

  function RequestFor(spec: CertificateSpec): CreateRequest {
    CreateRequest(spec.certificateAuthorityARN, spec.domainName, spec.domainValidationOptions,
                  Sent(spec.keyAlgorithm), Sent(spec.managedBy), RequestedOptions(spec),
                  spec.subjectAlternativeNames, spec.tags, "DNS")
  }

  /** The request, field by field: the spec's fields, unset ones absent, DNS validation, and export forced when due. */
  lemma RequestCarriesTheSpec(spec: CertificateSpec)
    ensures var q := RequestFor(spec);
      && q.certificateAuthorityArn == spec.certificateAuthorityARN
      && q.domainName == spec.domainName
      && q.domainValidationOptions == spec.domainValidationOptions
      && q.subjectAlternativeNames == spec.subjectAlternativeNames
      && q.tags == spec.tags
      && q.validationMethod == "DNS"
      && q.keyAlgorithm == (if spec.keyAlgorithm.Some? then spec.keyAlgorithm.value else "")
      && q.managedBy == (if spec.managedBy.Some? then spec.managedBy.value else "")
    ensures var q := RequestFor(spec);
      var forced := spec.exportTo.Some? && spec.certificateAuthorityARN.None? && spec.certificateAuthorityRef.None?;
      && (q.options.None? <==> spec.options.None? && !forced)
      && (q.options.Some? ==>
        && q.options.value.logging ==
             (if spec.options.Some? && spec.options.value.logging.Some? then spec.options.value.logging.value else "")
        && q.options.value.exportable ==
             (if forced then "ENABLED"
              else if spec.options.value.exportable.Some? then spec.options.value.exportable.value else ""))
  {
  }

  method CopyTags(tags: seq<Tag>) returns (sdkTags: seq<Tag>)
    ensures sdkTags == tags
  {
    sdkTags := [];
    for i := 0 to |tags|
      invariant sdkTags == tags[..i]
    {
      var elem := Tag(None, None);
      if tags[i].key.Some? {
        elem := elem.(key := tags[i].key);
      }
      if tags[i].value.Some? {
        elem := elem.(value := tags[i].value);
      }
      sdkTags := sdkTags + [elem];
    }
  }

  method CopyValidationOptions(options: seq<DomainValidationOption>) returns (copy: seq<DomainValidationOption>)
    ensures copy == options
  {
    copy := [];
    for i := 0 to |options|
      invariant copy == options[..i]
    {
      copy := copy + [DomainValidationOption(options[i].domainName, options[i].validationDomain)];
    }
  }

  method CopyOptions(options: CertificateOptions) returns (o: SdkOptions)
    ensures o == SdkOptions(Sent(options.logging), Sent(options.exportable))
  {
    o := SdkOptions("", "");
    if options.logging.Some? {
      o := o.(logging := options.logging.value);
    }
    if options.exportable.Some? {
      o := o.(exportable := options.exportable.value);
    }
  }

  method NewCreateRequestPayload(r: Certificate) returns (res: CreateRequest)
    ensures res == RequestFor(r.spec.(exportTo := None)).(validationMethod := "")
    ensures res.subjectAlternativeNames == r.spec.subjectAlternativeNames
    ensures res.domainValidationOptions == r.spec.domainValidationOptions
    ensures res.tags == r.spec.tags
  {
    res := CreateRequest(r.spec.certificateAuthorityARN, r.spec.domainName, None, "", "", None, None, [], "");
    if r.spec.domainValidationOptions.Some? {
      var options := CopyValidationOptions(r.spec.domainValidationOptions.value);
      res := res.(domainValidationOptions := Some(options));
    }
    if r.spec.keyAlgorithm.Some? {
      res := res.(keyAlgorithm := r.spec.keyAlgorithm.value);
    }
    if r.spec.managedBy.Some? {
      res := res.(managedBy := r.spec.managedBy.value);
    }
    if r.spec.options.Some? {
      var o := CopyOptions(r.spec.options.value);
      res := res.(options := Some(o));
    }
    if r.spec.subjectAlternativeNames.Some? {
      res := res.(subjectAlternativeNames := r.spec.subjectAlternativeNames);
    }
    var tags := CopyTags(r.spec.tags);
    res := res.(tags := tags);
  }

  // ---------- Import ----------

  /** Fields that only make sense in a request. */
  predicate CarriesRequestFields(spec: CertificateSpec) {
    || spec.domainName.Some?
    || (spec.domainValidationOptions.Some? && |spec.domainValidationOptions.value| > 0)
    || spec.keyAlgorithm.Some?
    || (spec.subjectAlternativeNames.Some? && |spec.subjectAlternativeNames.value| > 0)
    || spec.options.Some?
  }

  /** The import path's refusal to look at a resource, before any remote call. */
  function Refusal(r: Snapshot): Option<Error> {
    if r.spec.certificate.Some? then
      if !r.status.HasARN() && CarriesRequestFields(r.spec) then Some(REQUEST_FIELDS_ON_IMPORT) else None
    else if r.spec.domainName.Some? && (r.spec.privateKey.Some? || r.spec.certificateChain.Some?) then
      Some(IMPORT_FIELDS_ON_REQUEST)
    else None
  }

  function Secret(lookup: SecretKeyReference -> Result<string>, reference: Option<SecretKeyReference>): Result<string> {
    if reference.None? then Ok("") else lookup(reference.value)
  }

  /** The three secrets in the order in which they are read; the first failure asks for a retry. */
  function ImportFor(spec: CertificateSpec, lookup: SecretKeyReference -> Result<string>): Result<ImportRequest> {
    var key := Secret(lookup, spec.privateKey);
    var body := Secret(lookup, spec.certificate);
    var chain := Secret(lookup, spec.certificateChain);
    if key.Err? then Err(RequeueNeeded(key.error))
    else if body.Err? then Err(RequeueNeeded(body.error))
    else if chain.Err? then Err(RequeueNeeded(chain.error))
    else Ok(ImportRequest(spec.certificateARN, body.value, chain.value, key.value, spec.tags))
  }

  /** A named Secret cannot be read. */
  predicate Unreadable(lookup: SecretKeyReference -> Result<string>, reference: Option<SecretKeyReference>) {
    reference.Some? && lookup(reference.value).Err?
  }

  /** `part` is the content of the named Secret, or empty when none is named. */
  predicate IsContentOf(part: string, lookup: SecretKeyReference -> Result<string>,
                        reference: Option<SecretKeyReference>) {
    if reference.None? then part == "" else lookup(reference.value) == Ok(part)
  }

  /** The import request has each part from its own Secret, and asks to replace the certificate the spec names. */
  lemma ImportCarriesTheSecrets(spec: CertificateSpec, lookup: SecretKeyReference -> Result<string>)
    ensures var input := ImportFor(spec, lookup);
      && (input.Err? <==> Unreadable(lookup, spec.privateKey) || Unreadable(lookup, spec.certificate)
                          || Unreadable(lookup, spec.certificateChain))
      && (input.Err? ==> input.error.RequeueNeeded?)
      && (Unreadable(lookup, spec.privateKey) ==>
           input == Err(RequeueNeeded(lookup(spec.privateKey.value).error)))
      && (!Unreadable(lookup, spec.privateKey) && Unreadable(lookup, spec.certificate) ==>
           input == Err(RequeueNeeded(lookup(spec.certificate.value).error)))
      && (input.Ok? ==>
        && IsContentOf(input.value.privateKey, lookup, spec.privateKey)
        && IsContentOf(input.value.certificate, lookup, spec.certificate)
        && IsContentOf(input.value.certificateChain, lookup, spec.certificateChain)
        && input.value.certificateArn == spec.certificateARN
        && input.value.tags == spec.tags)
  {
  }

  method NewImportCertificateInput(r: Certificate, lookup: SecretKeyReference -> Result<string>)
    returns (input: Result<ImportRequest>)
    ensures input == ImportFor(r.spec, lookup)
  {
    var tags := CopyTags(r.spec.tags);
    var request := ImportRequest(r.spec.certificateARN, "", "", "", tags);
    var tmpSecret := Secret(lookup, r.spec.privateKey);
    if tmpSecret.Err? {
      return Err(RequeueNeeded(tmpSecret.error));
    }
    request := request.(privateKey := tmpSecret.value);
    tmpSecret := Secret(lookup, r.spec.certificate);
    if tmpSecret.Err? {
      return Err(RequeueNeeded(tmpSecret.error));
    }
    request := request.(certificate := tmpSecret.value);
    tmpSecret := Secret(lookup, r.spec.certificateChain);
    if tmpSecret.Err? {
      return Err(RequeueNeeded(tmpSecret.error));
    }
    request := request.(certificateChain := tmpSecret.value);
    return Ok(request);
  }

  /** The status of a resource whose creation ACM answered with `arn`. */
  function Created(status: CertificateStatus, arn: Option<string>, id: Identity): CertificateStatus {
    WithDefaults(status.(metadata := Some(ObservedMetadata(status.metadata, arn))), id)
  }

  /** A copy of the resource with the answer's ARN; used for requested and for imported certificates. */
  method SetCreated(desired: Certificate, arn: Option<string>, id: Identity) returns (created: Certificate)
    ensures fresh(created) && created.spec == desired.spec
    ensures created.status == Created(desired.status, arn, id)
  {
    created := desired.DeepCopy();
    if created.status.metadata.None? {
      created.status := created.status.(metadata := Some(ResourceMetadata(None, None, None, None)));
    }
    if arn.Some? {
      created.status := created.status.(metadata := Some(created.status.metadata.value.(arn := arn)));
    }
    SetStatusDefaults(created, id);
  }

  /** A created resource is known by the ARN it was answered with; of its status only the metadata changes. */
  lemma CreatedHasTheARN(status: CertificateStatus, arn: Option<string>, id: Identity)
    ensures var created := Created(status, arn, id);
      && created == status.(metadata := created.metadata)
      && created.metadata.Some?
      && (arn.Some? ==> created.metadata.value.arn == arn)
      && (arn.None? ==> created.HasARN() == status.HasARN())
      && (arn.None? && status.metadata.Some? ==> created.metadata.value.arn == status.metadata.value.arn)
  {
  }

  /** The error of the import path, if any; `imported` is ACM's answer to the import call. */
  function ImportError(r: Snapshot, lookup: SecretKeyReference -> Result<string>,
                       imported: Result<Option<string>>): Option<Error> {
    if Refusal(r).Some? then Refusal(r)
    else if r.spec.certificate.None? then None
    else
      var input := ImportFor(r.spec, lookup);
      if input.Err? then Some(input.error)
      else if input.value.privateKey == "" then Some(PRIVATE_KEY_REQUIRED)
      else if imported.Err? then Some(imported.error)
      else None
  }

  /** The import request put to ACM, if one is. */
  function ImportSent(r: Snapshot, lookup: SecretKeyReference -> Result<string>): Option<ImportRequest> {
    if Refusal(r).Some? || r.spec.certificate.None? then None
    else
      var input := ImportFor(r.spec, lookup);
      if input.Err? || input.value.privateKey == "" then None else Some(input.value)
  }

  /** Clears request fields on a local copy of the spec only: the caller's resource is not modified. */
  method MaybeImportCertificate(r: Certificate, lookup: SecretKeyReference -> Result<string>,
                                imported: Result<Option<string>>, id: Identity)
    returns (created: Certificate?, isImport: bool, err: Option<Error>, sent: Option<ImportRequest>)
    ensures err == ImportError(r.Value(), lookup, imported)
    ensures sent == ImportSent(r.Value(), lookup)
    ensures isImport <==> err.None? && r.spec.certificate.Some?
    ensures created != null <==> isImport
    ensures isImport ==> fresh(created) && created.spec == r.spec
    ensures isImport ==> created.status == Created(r.status, imported.value, id)
  {
    var certSpec := r.spec;
    if certSpec.certificate.Some? {
      if r.status.metadata.Some? && r.status.metadata.value.arn.Some? {
        certSpec := certSpec.(domainValidationOptions := None, keyAlgorithm := None,
                              subjectAlternativeNames := None, options := None, domainName := None);
      }
      if CarriesRequestFields(certSpec) {
        return null, false, Some(REQUEST_FIELDS_ON_IMPORT), None;
      }
      var input := NewImportCertificateInput(r, lookup);
      if input.Err? {
        return null, false, Some(input.error), None;
      }
      if |input.value.privateKey| == 0 {
        return null, false, Some(PRIVATE_KEY_REQUIRED), None;
      }
      if imported.Err? {
        return null, false, Some(imported.error), Some(input.value);
      }
      var ko := SetCreated(r, imported.value, id);
      return ko, true, None, Some(input.value);
    }
    if certSpec.domainName.Some?
       && (certSpec.certificate.Some? || certSpec.privateKey.Some? || certSpec.certificateChain.Some?) {
      return null, false, Some(IMPORT_FIELDS_ON_REQUEST), None;
    }
    return null, false, None, None;
  }

  /** As the code has it: the limit is applied when an authority is named. */
  predicate TooManyValidationOptions(spec: CertificateSpec) {
    spec.certificateAuthorityARN.Some?
    && spec.domainValidationOptions.Some? && |spec.domainValidationOptions.value| > MAX_VALIDATION_OPTIONS
  }

  /** The error of a creation, if any. */
  function CreateError(r: Snapshot, lookup: SecretKeyReference -> Result<string>,
                       imported: Result<Option<string>>, requested: Result<Option<string>>): Option<Error> {
    if ImportError(r, lookup, imported).Some? || r.spec.certificate.Some? then ImportError(r, lookup, imported)
    else if TooManyValidationOptions(r.spec) then Some(TOO_MANY_OPTIONS)
    else if requested.Err? then Some(requested.error)
    else None
  }

  /** Which creations succeed: valid imports and valid requests that ACM accepts; only a valid import is sent. */
  lemma CreationSucceedsExactly(r: Snapshot, lookup: SecretKeyReference -> Result<string>,
                                imported: Result<Option<string>>, requested: Result<Option<string>>)
    ensures CreateError(r, lookup, imported, requested).None? <==>
      if r.spec.certificate.Some? then
        && (r.status.HasARN() || NoRequestFields(r.spec))
        && !Unreadable(lookup, r.spec.privateKey)
        && !Unreadable(lookup, r.spec.certificate)
        && !Unreadable(lookup, r.spec.certificateChain)
        && r.spec.privateKey.Some?
        && lookup(r.spec.privateKey.value) != Ok("")
        && imported.Ok?
      else
        && !(r.spec.domainName.Some? && (r.spec.privateKey.Some? || r.spec.certificateChain.Some?))
        && !(&& r.spec.certificateAuthorityARN.Some?
             && r.spec.domainValidationOptions.Some? && |r.spec.domainValidationOptions.value| > 5)
        && requested.Ok?
    ensures ImportSent(r, lookup).Some? <==>
      r.spec.certificate.Some? && CreateError(r, lookup, Ok(None), requested).None?
    ensures ImportSent(r, lookup).Some? ==> ImportFor(r.spec, lookup) == Ok(ImportSent(r, lookup).value)
  {
  }

  /** None of the fields that only a request may set is set to anything. */
  predicate NoRequestFields(spec: CertificateSpec) {
    && spec.domainName.None?
    && (spec.domainValidationOptions.None? || spec.domainValidationOptions.value == [])
    && spec.keyAlgorithm.None?
    && (spec.subjectAlternativeNames.None? || spec.subjectAlternativeNames.value == [])
    && spec.options.None?
  }

  /** A creation refused for its spec is not retried; one that lacks a Secret is. */
  lemma RefusalsAreTerminal(r: Snapshot, lookup: SecretKeyReference -> Result<string>,
                            imported: Result<Option<string>>, requested: Result<Option<string>>)
    ensures Refusal(r).Some? ==> CreateError(r, lookup, imported, requested) == Refusal(r) && IsTerminal(Refusal(r))
    ensures Refusal(r).None? && r.spec.certificate.Some? && r.spec.privateKey.None? && ImportFor(r.spec, lookup).Ok? ==>
      IsTerminal(CreateError(r, lookup, imported, requested))
    ensures Refusal(r).None? && r.spec.certificate.Some?
            && ImportFor(r.spec, lookup) == Err(RequeueNeeded(SecretNotFound)) ==>
      var err := CreateError(r, lookup, imported, requested);
      err.Some? && !IsTerminal(err)
    ensures Refusal(r).None? && r.spec.certificate.None? && TooManyValidationOptions(r.spec) ==>
      IsTerminal(CreateError(r, lookup, imported, requested))
  {
  }

  /** `sent` is the request put to ACM, if one was; `requested` is ACM's answer to it. */
  method SdkCreate(desired: Certificate, lookup: SecretKeyReference -> Result<string>,
                   imported: Result<Option<string>>, requested: Result<Option<string>>, id: Identity)
    returns (created: Certificate?, err: Option<Error>, sent: Option<CreateRequest>, importSent: Option<ImportRequest>)
    ensures err == CreateError(desired.Value(), lookup, imported, requested)
    ensures created == null <==> err.Some?
    ensures created != null ==> fresh(created) && created.spec == desired.spec
    ensures desired.spec.certificate.Some? ==> sent.None?
    ensures importSent == ImportSent(desired.Value(), lookup)
    ensures desired.spec.certificate.Some? && err.None? ==>
      created.status == Created(desired.status, imported.value, id)
    ensures desired.spec.certificate.None? && err.None? ==>
      requested.Ok? && created.status == Created(desired.status, requested.value, id)
    ensures sent.Some? ==> sent.value == RequestFor(desired.spec)
    ensures sent.Some? ==>
      && sent.value.subjectAlternativeNames == desired.spec.subjectAlternativeNames
      && sent.value.domainValidationOptions == desired.spec.domainValidationOptions
      && sent.value.tags == desired.spec.tags
      && sent.value.validationMethod == "DNS"
      && sent.value.managedBy == if desired.spec.managedBy.Some? then desired.spec.managedBy.value else ""
    ensures desired.spec.certificate.None? ==>
      (sent.Some? <==> Refusal(desired.Value()).None? && !TooManyValidationOptions(desired.spec))
  {
    var isImport;
    created, isImport, err, importSent := MaybeImportCertificate(desired, lookup, imported, id);
    if err.Some? {
      return null, err, None, importSent;
    }
    if isImport {
      return created, None, None, importSent;
    }
    if TooManyValidationOptions(desired.spec) {
      return null, Some(TOO_MANY_OPTIONS), None, None;
    }
    var input := NewCreateRequestPayload(desired);
    input := input.(validationMethod := "DNS");
    if desired.spec.exportTo.Some? && desired.spec.certificateAuthorityARN.None?
       && desired.spec.certificateAuthorityRef.None? {
      if input.options.None? {
        input := input.(options := Some(SdkOptions("", "")));
      }
      input := input.(options := Some(input.options.value.(exportable := ENABLED)));
    }
    if requested.Err? {
      return null, Some(requested.error), Some(input), None;
    }
    created := SetCreated(desired, requested.value, id);
    return created, None, Some(input), None;
  }

  // ---------- Request, describe, late-initialize ----------

  /** A value ACM stores for a field it has a default for. */
  ghost predicate FilledIn(sent: string, stored: string) {
    stored != "" && (sent != "" ==> stored == sent)
  }

  /** ACM stores what was requested, spells the key algorithm its own way and adds its own tags. */
  ghost predicate Stores(request: CreateRequest, d: CertificateDetail, remote: seq<Tag>) {
    && d.certificateAuthorityArn == request.certificateAuthorityArn
    && d.domainName == request.domainName
    && d.managedBy == request.managedBy
    && (request.subjectAlternativeNames.Some? ==>
         && d.subjectAlternativeNames.Some?
         && forall name <- request.subjectAlternativeNames.value :: name in d.subjectAlternativeNames.value)
    && (request.certificateAuthorityArn.None? && d.domainValidations.Some? ==>
         forall v <- d.domainValidations.value :: v.validationMethod == request.validationMethod)
    && d.keyAlgorithm != ""
    && (request.keyAlgorithm != "" ==>
         NormalizeKeyAlgorithm(d.keyAlgorithm) == NormalizeKeyAlgorithm(request.keyAlgorithm))
    && d.options.Some?
    && FilledIn(if request.options.Some? then request.options.value.logging else "", d.options.value.logging)
    && FilledIn(if request.options.Some? then request.options.value.exportable else "", d.options.value.exportable)
    && StoresTags(Denote(request.tags), Denote(remote))
  }

  /** The requested tags are stored; what is stored besides, or with another value, is AWS-managed. */
  ghost predicate StoresTags(own: map<string, string>, stored: map<string, string>) {
    && own.Keys <= stored.Keys
    && forall k <- stored :: IsAWS(k) || (k in own && stored[k] == own[k])
  }

  /** The user left the options to ACM, or set the logging preference and did not contradict the forced export. */
  predicate OptionsRequestable(spec: CertificateSpec) {
    || spec.options.None?
    || (&& spec.options.value.logging.Some?
        && spec.options.value.logging.value != ""
        && (spec.options.value.exportable.Some? ==>
          && spec.options.value.exportable.value != ""
          && (ForcesExport(spec) ==> spec.options.value.exportable.value == ENABLED)))
  }

  lemma MirroredIsStored(own: map<string, string>, stored: map<string, string>)
    requires StoresTags(own, stored)
    ensures WithAWSOf(own, stored) == stored
  {
  }

  /**
   Request, describe and late-initialize: the stored certificate shows no difference from the
   desired resource, other than that it was issued, exactly when the options were requestable and
   the key algorithm is not set to the empty string, which a request cannot tell from unset.
   */
  lemma RequestDescribeRoundTrip(desired: Snapshot, arn: Option<string>, d: CertificateDetail,
                                 remote: seq<Tag>, id: Identity, late: Snapshot)
    requires Stores(RequestFor(desired.spec), d, remote)
    requires var created := desired.(status := Created(desired.status, arn, id));
      LateInitialized(created, Observe(created, d, remote, id), late)
    ensures var created := desired.(status := Created(desired.status, arn, id));
      Differences(late, Observe(created, d, remote, id)) <= {IssuedAt, Serial} <==>
        OptionsRequestable(desired.spec) && desired.spec.keyAlgorithm != Some("")
  {
    var created := desired.(status := Created(desired.status, arn, id));
    var o := Observe(created, d, remote, id);
    MirroredIsStored(Denote(desired.spec.tags), Denote(remote));
    ListingKeepsTheMap(late.spec.tags, Denote(remote), KeyOrder(desired.spec.tags));
    LateInitializationSettles(created, o, late);
    assert o.spec.options == Some(CertificateOptions(Some(d.options.value.logging), Some(d.options.value.exportable)));
    assert late.spec.options == o.spec.options <==> OptionsRequestable(desired.spec);
    assert SameKeyAlgorithm(late.spec.keyAlgorithm, o.spec.keyAlgorithm) <==> desired.spec.keyAlgorithm != Some("");
    OptionsAndKeyCanDiffer(late, o);
  }

  /**
   The certificate observed after a creation is the one asked for: it is for the domain and has the
   authority and manager of the spec, covers every alternative name the user named and, without an
   authority, is validated by DNS only and can be exported if it is to be.
   */
  lemma CreatedAsAskedFor(desired: Snapshot, arn: Option<string>, d: CertificateDetail, remote: seq<Tag>, id: Identity)
    requires Stores(RequestFor(desired.spec), d, remote)
    ensures var o := Observe(desired.(status := Created(desired.status, arn, id)), d, remote, id);
      && o.spec.domainName == desired.spec.domainName
      && o.spec.certificateAuthorityARN == desired.spec.certificateAuthorityARN
      && (o.spec.managedBy == if desired.spec.managedBy == Some("") then None else desired.spec.managedBy)
      && (desired.spec.subjectAlternativeNames.Some? ==>
           && o.spec.subjectAlternativeNames.Some?
           && forall name <- desired.spec.subjectAlternativeNames.value :: name in o.spec.subjectAlternativeNames.value)
      && (desired.spec.certificateAuthorityARN.None? && o.status.domainValidations.Some? ==>
           forall v <- o.status.domainValidations.value :: v.validationMethod == Some("DNS"))
      && (desired.spec.exportTo.Some? && desired.spec.certificateAuthorityARN.None?
          && desired.spec.certificateAuthorityRef.None? ==>
           o.spec.options.Some? && o.spec.options.value.exportable == Some("ENABLED"))
      && (arn.Some? && d.arn.None? ==> o.status.metadata.value.arn == arn)
  {
  }

  lemma OptionsAndKeyCanDiffer(a: Snapshot, b: Snapshot)
    requires ImmutableAgree(a.spec.(keyAlgorithm := None), b.spec) && Denote(a.spec.tags) == Denote(b.spec.tags)
    ensures Differences(a, b) <= {IssuedAt, Serial} <==>
      a.spec.options == b.spec.options && SameKeyAlgorithm(a.spec.keyAlgorithm, b.spec.keyAlgorithm)
  {
    if a.spec.options != b.spec.options || !SameKeyAlgorithm(a.spec.keyAlgorithm, b.spec.keyAlgorithm) {
      assert Differs(Options, a, b) || Differs(LoggingPreference, a, b) || Differs(Export, a, b)
        || Differs(KeyAlgorithm, a, b);
      assert Options in Differences(a, b) || LoggingPreference in Differences(a, b) || Export in Differences(a, b)
        || KeyAlgorithm in Differences(a, b);
    } else {
      forall p: Path | p in Differences(a, b)
        ensures p in {IssuedAt, Serial}
      {
        assert Differs(p, a, b);
      }
    }
  }

  // ---------- The life of an imported certificate ----------

  /** The stored resource, and whether the certificate it names still exists in ACM. */
  datatype Life = Life(r: Snapshot, inACM: bool)

  /** One step: a creation, a late initialization, a deletion behind the controller's back or a user edit. */
  ghost predicate Step(s: Life, t: Life, id: Identity) {
    || Recreated(s, t, id)
    || (exists d: CertificateDetail, tags: seq<Tag> :: FilledInFrom(s, t, d, tags, id))
    || t == s.(inACM := false)
    || Edited(s, t)
  }

  /** What ACM can answer to a describe call: nothing but that there is none, for a certificate that is gone. */
  ghost predicate Answers(s: Life, described: Result<CertificateDetail>) {
    if s.inACM then !(described.Err? && (described.error == NotFound || SaysNotFound(described.error)))
    else described.Err? && SaysNotFound(described.error)
  }

  /** A read finds the certificate missing. */
  ghost predicate FoundMissing(s: Life) {
    exists described: Result<CertificateDetail>, listed: Result<seq<Tag>> ::
      Answers(s, described) && listed != Err(NotFound) && FindError(s.r, described, listed) == Some(NotFound)
  }

  /** The certificate is found missing, so it is created; a refused creation leaves the resource as it was. */
  ghost predicate Recreated(s: Life, t: Life, id: Identity) {
    && FoundMissing(s)
    && (t == s || (Refusal(s.r).None? && t.inACM && t.r.spec == s.r.spec
                   && exists arn: Option<string> :: t.r.status == Created(s.r.status, arn, id)))
  }

  /** Late initialization needs a successful read, and a read needs an ARN and a certificate. */
  ghost predicate FilledInFrom(s: Life, t: Life, d: CertificateDetail, tags: seq<Tag>, id: Identity) {
    && s.inACM
    && FindError(s.r, Ok(d), Ok(tags)).None?
    && t.inACM == s.inACM
    && LateInitialized(s.r, Observe(s.r, d, tags, id), t.r)
  }

  /** The user may change the other fields, but adds request fields only to a certificate that has an ARN. */
  ghost predicate Edited(s: Life, t: Life) {
    && t.inACM == s.inACM
    && t.r.status == s.r.status
    && t.r.spec.certificate == s.r.spec.certificate
    && (CarriesRequestFields(t.r.spec) ==> s.r.status.HasARN() || CarriesRequestFields(s.r.spec))
  }

  ghost predicate Run(states: seq<Life>, id: Identity) {
    |states| > 0 && forall i :: 0 <= i < |states| - 1 ==> Step(states[i], states[i + 1], id)
  }

  lemma {:induction false} ImportStaysAcceptable(states: seq<Life>, id: Identity, i: nat)
    requires Run(states, id) && i < |states|
    requires states[0].r.spec.certificate.Some? && Refusal(states[0].r).None?
    ensures states[i].r.spec.certificate.Some? && Refusal(states[i].r).None?
  {
    if i > 0 {
      ImportStaysAcceptable(states, id, i - 1);
      assert Step(states[i - 1], states[i - 1 + 1], id);
      var s, t := states[i - 1], states[i];
      if Recreated(s, t, id) {
      } else if exists d: CertificateDetail, tags: seq<Tag> :: FilledInFrom(s, t, d, tags, id) {
        var d: CertificateDetail, tags: seq<Tag> :| FilledInFrom(s, t, d, tags, id);
      }
    }
  }

  /** A read finds the certificate missing exactly when none is named or it is gone from ACM. */
  lemma MissingExactly(s: Life)
    ensures FoundMissing(s) <==> !s.r.status.HasARN() || !s.inACM
  {
    var gone: Result<CertificateDetail> := Err(ApiError("ResourceNotFoundException", ""));
    var there: Result<CertificateDetail> := Err(OtherError(""));
    NotFoundExactly(s.r, gone, Ok([]));
    NotFoundExactly(s.r, there, Ok([]));
    if !s.inACM {
      assert Answers(s, gone) && FindError(s.r, gone, Ok([])) == Some(NotFound);
    } else if !s.r.status.HasARN() {
      assert Answers(s, there) && FindError(s.r, there, Ok([])) == Some(NotFound);
    } else if FoundMissing(s) {
      var described: Result<CertificateDetail>, listed: Result<seq<Tag>> :|
        Answers(s, described) && listed != Err(NotFound) && FindError(s.r, described, listed) == Some(NotFound);
      NotFoundExactly(s.r, described, listed);
    }
  }

  /**
   At any time of any run of a valid import: when the certificate has been deleted from ACM, every
   read reports it as not found, and the import can be, and is, made again with the same spec.
   */
  lemma DeletionLeadsToRecreation(states: seq<Life>, id: Identity, i: nat, arn: string)
    requires Run(states, id) && i < |states| && !states[i].inACM
    requires states[0].r.spec.certificate.Some? && Refusal(states[0].r).None?
    ensures forall described: Result<CertificateDetail>, listed: Result<seq<Tag>> :: Answers(states[i], described) ==>
      FindError(states[i].r, described, listed) == Some(NotFound)
    ensures var t := Life(states[i].r.(status := Created(states[i].r.status, Some(arn), id)), true);
      && Step(states[i], t, id)
      && t.r.status.HasARN() && t.r.status.metadata.value.arn == Some(arn)
      && !FoundMissing(t)
  {
    ImportStaysAcceptable(states, id, i);
    forall described: Result<CertificateDetail>, listed: Result<seq<Tag>> | Answers(states[i], described)
      ensures FindError(states[i].r, described, listed) == Some(NotFound)
    {
      NotFoundExactly(states[i].r, described, listed);
    }
    MissingExactly(states[i]);
    var t := Life(states[i].r.(status := Created(states[i].r.status, Some(arn), id)), true);
    assert Recreated(states[i], t, id);
    MissingExactly(t);
  }

  /**
   Along every run an imported certificate is never refused for carrying request fields, late
   initialization and re-imports included, exactly when it started as a valid import.
   */
  lemma ImportIsNeverRefused(start: Life, id: Identity)
    requires start.r.spec.certificate.Some?
    ensures (forall states: seq<Life>, i: nat ::
              Run(states, id) && states[0] == start && i < |states| ==> Refusal(states[i].r).None?)
      <==> start.r.status.HasARN() || NoRequestFields(start.r.spec)
  {
    if start.r.status.HasARN() || !CarriesRequestFields(start.r.spec) {
      forall states: seq<Life>, i: nat | Run(states, id) && states[0] == start && i < |states|
        ensures Refusal(states[i].r).None?
      {
        ImportStaysAcceptable(states, id, i);
      }
    } else {
      assert Run([start], id) && [start][0] == start && Refusal([start][0].r).Some?;
    }
  }
}
