/**
 The Kubernetes resource and the ACM responses it is compared with.

 A Go pointer that is only ever replaced as a whole is an `Option`; a Go slice whose nil-ness
 matters is an `Option<seq<...>>`. The resource itself and its conditions, which the controller
 edits in place, are classes.
 */
module Types {
  datatype Option<+T> = None | Some(value: T) {
    function OrElse(other: Option<T>): Option<T> {
      if Some? then this else other
    }
  }

  type Time = int

  datatype Tag = Tag(key: Option<string>, value: Option<string>)

  datatype SecretKeyReference = SecretKeyReference(namespace: string, name: string, key: string)

  datatype ResourceReference = ResourceReference(name: Option<string>, namespace: Option<string>)

  datatype ReferenceWrapper = ReferenceWrapper(from: Option<ResourceReference>)

  datatype CertificateOptions = CertificateOptions(logging: Option<string>, exportable: Option<string>)

  datatype DomainValidationOption =
    DomainValidationOption(domainName: Option<string>, validationDomain: Option<string>)

  datatype ResourceRecord = ResourceRecord(name: Option<string>, rtype: Option<string>, value: Option<string>)

  datatype HTTPRedirect = HTTPRedirect(redirectFrom: Option<string>, redirectTo: Option<string>)

  datatype DomainValidation = DomainValidation(
    domainName: Option<string>,
    httpRedirect: Option<HTTPRedirect>,
    resourceRecord: Option<ResourceRecord>,
    validationDomain: Option<string>,
    validationEmails: Option<seq<string>>,
    validationMethod: Option<string>,
    validationStatus: Option<string>)

  datatype ExtendedKeyUsage = ExtendedKeyUsage(name: Option<string>, oid: Option<string>)

  datatype RenewalSummary = RenewalSummary(
    domainValidations: Option<seq<DomainValidation>>,
    renewalStatus: Option<string>,
    renewalStatusReason: Option<string>,
    updatedAt: Option<Time>)

  datatype CertificateSpec = CertificateSpec(
    certificate: Option<SecretKeyReference>,
    certificateARN: Option<string>,
    certificateAuthorityARN: Option<string>,
    certificateAuthorityRef: Option<ReferenceWrapper>,
    certificateChain: Option<SecretKeyReference>,
    domainName: Option<string>,
    domainValidationOptions: Option<seq<DomainValidationOption>>,
    exportTo: Option<SecretKeyReference>,
    keyAlgorithm: Option<string>,
    managedBy: Option<string>,
    options: Option<CertificateOptions>,
    privateKey: Option<SecretKeyReference>,
    subjectAlternativeNames: Option<seq<string>>,
    tags: seq<Tag>)

  datatype ResourceMetadata = ResourceMetadata(
    arn: Option<string>,
    ownerAccountID: Option<string>,
    region: Option<string>,
    partition: Option<string>)

  datatype CertificateStatus = CertificateStatus(
    metadata: Option<ResourceMetadata>,
    createdAt: Option<Time>,
    domainValidations: Option<seq<DomainValidation>>,
    extendedKeyUsages: Option<seq<ExtendedKeyUsage>>,
    failureReason: Option<string>,
    importedAt: Option<Time>,
    inUseBy: Option<seq<string>>,
    issuedAt: Option<Time>,
    issuer: Option<string>,
    keyUsages: Option<seq<Option<string>>>,
    notAfter: Option<Time>,
    notBefore: Option<Time>,
    renewalEligibility: Option<string>,
    renewalSummary: Option<RenewalSummary>,
    revocationReason: Option<string>,
    revokedAt: Option<Time>,
    serial: Option<string>,
    signatureAlgorithm: Option<string>,
    status: Option<string>,
    subject: Option<string>,
    ctype: Option<string>)
  {
    predicate HasARN() {
      metadata.Some? && metadata.value.arn.Some?
    }
  }

  /** The value of a resource at one moment: its spec and its status without the conditions. */
  datatype Snapshot = Snapshot(spec: CertificateSpec, status: CertificateStatus)

  datatype ConditionType = Terminal | Recoverable | ResourceSynced | OtherType(name: string)

  /** A condition's value; `status` is true for "True". */
  datatype ConditionValue = ConditionValue(ctype: ConditionType, status: bool, message: Option<string>)

  class Condition {
    const ctype: ConditionType
    var status: bool
    var message: Option<string>

    constructor (value: ConditionValue)
      ensures Value() == value
    {
      ctype, status, message := value.ctype, value.status, value.message;
    }

    ghost function Value(): ConditionValue
      reads this
    {
      ConditionValue(ctype, status, message)
    }
  }

  ghost function Values(conditions: seq<Condition>): (vs: seq<ConditionValue>)
    reads conditions
    ensures |vs| == |conditions|
    ensures forall i :: 0 <= i < |vs| ==> vs[i] == conditions[i].Value()
  {
    seq(|conditions|, i requires 0 <= i < |conditions| reads conditions => conditions[i].Value())
  }

  /** The custom resource ("ko" in the controller). */
  class Certificate {
    const namespace: string
    var spec: CertificateSpec
    var status: CertificateStatus
    var conditions: seq<Condition>

    constructor (namespace: string, spec: CertificateSpec, status: CertificateStatus, conditions: seq<Condition>)
      ensures this.namespace == namespace && this.spec == spec && this.status == status
      ensures this.conditions == conditions
    {
      this.namespace, this.spec, this.status, this.conditions := namespace, spec, status, conditions;
    }

    ghost function Value(): Snapshot
      reads this
    {
      Snapshot(spec, status)
    }

    /** A structurally equal resource that shares no object with this one. */
    method DeepCopy() returns (copy: Certificate)
      ensures fresh(copy) && copy.namespace == namespace
      ensures copy.spec == spec && copy.status == status
      ensures fresh(copy.conditions) && Distinct(copy.conditions)
      ensures Values(copy.conditions) == Values(conditions)
    {
      var cs: seq<Condition> := [];
      for i := 0 to |conditions|
        invariant fresh(cs) && Distinct(cs) && |cs| == i
        invariant forall j :: 0 <= j < i ==> cs[j].Value() == conditions[j].Value()
      {
        var source := conditions[i];
        var c := new Condition(ConditionValue(source.ctype, source.status, source.message));
        cs := cs + [c];
      }
      copy := new Certificate(namespace, spec, status, cs);
    }
  }

  ghost predicate Distinct<T>(s: seq<T>) {
    forall i, j :: 0 <= i < j < |s| ==> s[i] != s[j]
  }
}
