/**
 delta.go and the comparison hooks of hooks.go: which fields of the desired and the latest
 resource differ.
 */
module Delta {
  import opened Types
  import opened Tags

  /** The paths the comparison can record. */
  datatype Path =
    | Root | IssuedAt | Serial | KeyAlgorithm | CertificateARN | CertificateAuthorityARN
    | CertificateAuthorityRef | DomainName | Options | LoggingPreference | Export | TagList

  datatype Component =
    | Unnamed | SpecPart | StatusPart | LeafPart(leaf: Path)

  /** The components of a path; the last one is named by the path itself. */
  function Components(p: Path): seq<Component> {
    match p
    case Root => [Unnamed]
    case IssuedAt | Serial => [SpecPart, StatusPart, LeafPart(p)]
    case LoggingPreference | Export => [SpecPart, LeafPart(Options), LeafPart(p)]
    case _ => [SpecPart, LeafPart(p)]
  }

  predicate Under(d: Path, p: Path) {
    Components(p) <= Components(d)
  }

  const ISSUED := "ISSUED"

  /** Some recorded path lies at or below `p`. */
  predicate At(paths: set<Path>, p: Path) {
    exists d <- paths :: Under(d, p)
  }

  /** Some recorded path does not lie at or below `p`. */
  predicate Except(paths: set<Path>, p: Path) {
    exists d <- paths :: !Under(d, p)
  }

  class ResourceDelta {
    var differences: seq<Path>

    constructor ()
      ensures differences == []
    {
      differences := [];
    }

    ghost function Paths(): set<Path>
      reads this
    {
      set d <- differences
    }

    method Add(p: Path)
      modifies this
      ensures Paths() == old(Paths()) + {p}
    {
      differences := differences + [p];
    }

    method DifferentAt(p: Path) returns (r: bool)
      ensures r <==> At(Paths(), p)
    {
      r := false;
      for i := 0 to |differences|
        invariant r <==> exists j :: 0 <= j < i && Under(differences[j], p)
      {
        if Under(differences[i], p) {
          r := true;
        }
      }
      assert forall d :: d in Paths() <==> d in differences;
    }

    method DifferentExcept(p: Path) returns (r: bool)
      ensures r <==> Except(Paths(), p)
    {
      r := false;
      for i := 0 to |differences|
        invariant r <==> exists j :: 0 <= j < i && !Under(differences[j], p)
      {
        if !Under(differences[i], p) {
          r := true;
        }
      }
      assert forall d :: d in Paths() <==> d in differences;
    }
  }

  // ---------- What differs ----------

  function NormalizeKeyAlgorithm(algorithm: string): (r: string)
    ensures |r| == |algorithm|
  {
    seq(|algorithm|, i requires 0 <= i < |algorithm| => if algorithm[i] == '-' then '_' else algorithm[i])
  }

  /** A key algorithm only one side sets is no difference. */
  predicate SameKeyAlgorithm(a: Option<string>, b: Option<string>) {
    a.Some? && b.Some? ==> NormalizeKeyAlgorithm(a.value) == NormalizeKeyAlgorithm(b.value)
  }

  /** The certificate has been issued and this resource has no record of it. */
  predicate FirstIssue(a: Snapshot, b: Snapshot) {
    a.spec.exportTo.Some? && a.status.issuedAt.None? && b.status.status == Some(ISSUED)
  }

  /** The certificate is another one than the recorded one. */
  predicate Renewed(a: Snapshot, b: Snapshot) {
    a.spec.exportTo.Some? && a.status.serial.Some? && b.status.serial.Some? && a.status.serial != b.status.serial
  }

  function LoggingOf(o: Option<CertificateOptions>): Option<string> {
    if o.Some? then o.value.logging else None
  }

  function ExportOf(o: Option<CertificateOptions>): Option<string> {
    if o.Some? then o.value.exportable else None
  }

  /** Two present Options are compared inside, otherwise as a whole. */
  predicate BothOptions(a: Snapshot, b: Snapshot) {
    a.spec.options.Some? && b.spec.options.Some?
  }

  predicate Differs(p: Path, a: Snapshot, b: Snapshot) {
    match p
    case Root => false
    case IssuedAt => FirstIssue(a, b)
    case Serial => Renewed(a, b)
    case KeyAlgorithm => !SameKeyAlgorithm(a.spec.keyAlgorithm, b.spec.keyAlgorithm)
    case CertificateARN => a.spec.certificateARN != b.spec.certificateARN
    case CertificateAuthorityARN => a.spec.certificateAuthorityARN != b.spec.certificateAuthorityARN
    case CertificateAuthorityRef => a.spec.certificateAuthorityRef != b.spec.certificateAuthorityRef
    case DomainName => a.spec.domainName != b.spec.domainName
    case Options => a.spec.options.Some? != b.spec.options.Some?
    case LoggingPreference => BothOptions(a, b) && LoggingOf(a.spec.options) != LoggingOf(b.spec.options)
    case Export => BothOptions(a, b) && ExportOf(a.spec.options) != ExportOf(b.spec.options)
    case TagList => Denote(a.spec.tags) != Denote(b.spec.tags)
  }

  function Differences(a: Snapshot, b: Snapshot): set<Path> {
    set p: Path | Differs(p, a, b)
  }

  /** The fields no update can change agree. */
  ghost predicate ImmutableAgree(a: CertificateSpec, b: CertificateSpec) {
    && SameKeyAlgorithm(a.keyAlgorithm, b.keyAlgorithm)
    && a.certificateARN == b.certificateARN
    && a.certificateAuthorityARN == b.certificateAuthorityARN
    && a.certificateAuthorityRef == b.certificateAuthorityRef
    && a.domainName == b.domainName
  }

  // ---------- The operations ----------

  predicate HasNilDifference<T>(a: Option<T>, b: Option<T>) {
    a.Some? != b.Some?
  }

  method CompareStrings(delta: ResourceDelta, p: Path, a: Option<string>, b: Option<string>)
    modifies delta
    ensures delta.Paths() == old(delta.Paths()) + if a == b then {} else {p}
  {
    if HasNilDifference(a, b) {
      delta.Add(p);
    } else if a.Some? && b.Some? {
      if a.value != b.value {
        delta.Add(p);
      }
    }
  }

  method CompareKeyAlgorithm(delta: ResourceDelta, a: Certificate, b: Certificate)
    modifies delta
    ensures delta.Paths() == old(delta.Paths())
      + if SameKeyAlgorithm(a.spec.keyAlgorithm, b.spec.keyAlgorithm) then {} else {KeyAlgorithm}
  {
    if a.spec.keyAlgorithm.Some? && b.spec.keyAlgorithm.Some? {
      var normalizedA := NormalizeKeyAlgorithm(a.spec.keyAlgorithm.value);
      var normalizedB := NormalizeKeyAlgorithm(b.spec.keyAlgorithm.value);
      if normalizedA != normalizedB {
        delta.Add(KeyAlgorithm);
      }
    }
  }

  method CompareCertificateIssuedAt(delta: ResourceDelta, a: Certificate, b: Certificate)
    modifies delta
    ensures forall p :: p in delta.Paths() <==>
      p in old(delta.Paths()) || (p in {IssuedAt, Serial} && Differs(p, a.Value(), b.Value()))
  {
    if a.spec.exportTo.Some? {
      if a.status.issuedAt.None? && b.status.status.Some? && b.status.status.value == ISSUED {
        delta.Add(IssuedAt);
      }
      if a.status.serial.Some? && b.status.serial.Some? && a.status.serial.value != b.status.serial.value {
        delta.Add(Serial);
      }
    }
  }

  method CompareOptions(delta: ResourceDelta, a: Certificate, b: Certificate)
    modifies delta
    ensures forall p :: p in delta.Paths() <==>
      p in old(delta.Paths()) || (p in {Options, LoggingPreference, Export} && Differs(p, a.Value(), b.Value()))
  {
    if HasNilDifference(a.spec.options, b.spec.options) {
      delta.Add(Options);
    } else if a.spec.options.Some? && b.spec.options.Some? {
      CompareStrings(delta, LoggingPreference, a.spec.options.value.logging, b.spec.options.value.logging);
      CompareStrings(delta, Export, a.spec.options.value.exportable, b.spec.options.value.exportable);
    }
  }

  method CompareTags(delta: ResourceDelta, a: Certificate, b: Certificate)
    modifies delta
    ensures delta.Paths() == old(delta.Paths()) + if Denote(a.spec.tags) == Denote(b.spec.tags) then {} else {TagList}
  {
    var desiredACKTags, _ := ConvertToOrderedACKTags(a.spec.tags);
    var latestACKTags, _ := ConvertToOrderedACKTags(b.spec.tags);
    if desiredACKTags.entries != latestACKTags.entries {
      delta.Add(TagList);
    }
  }

  method CompareIdentity(delta: ResourceDelta, a: Certificate, b: Certificate)
    modifies delta
    ensures forall p :: p in delta.Paths() <==>
      || p in old(delta.Paths())
      || (p in {CertificateARN, CertificateAuthorityARN, CertificateAuthorityRef, DomainName}
          && Differs(p, a.Value(), b.Value()))
  {
    CompareStrings(delta, CertificateARN, a.spec.certificateARN, b.spec.certificateARN);
    CompareStrings(delta, CertificateAuthorityARN, a.spec.certificateAuthorityARN, b.spec.certificateAuthorityARN);
    if a.spec.certificateAuthorityRef != b.spec.certificateAuthorityRef {
      delta.Add(CertificateAuthorityRef);
    }
    CompareStrings(delta, DomainName, a.spec.domainName, b.spec.domainName);
  }

  method NewResourceDelta(a: Certificate?, b: Certificate?) returns (delta: ResourceDelta)
    requires a != null || b != null
    ensures fresh(delta)
    ensures a == null || b == null ==> delta.Paths() == {Root}
    ensures a != null && b != null ==> delta.Paths() == Differences(a.Value(), b.Value())
  {
    delta := new ResourceDelta();
    if a == null || b == null {
      delta.Add(Root);
      return;
    }
    ghost var va, vb := a.Value(), b.Value();
    CompareCertificateIssuedAt(delta, a, b);
    CompareKeyAlgorithm(delta, a, b);
    CompareIdentity(delta, a, b);
    CompareOptions(delta, a, b);
    CompareTags(delta, a, b);
    assert forall p :: p in delta.Paths() <==> Differs(p, va, vb);
  }

  // ---------- Main results ----------

  /** No difference means: nothing to export, immutable fields and options equal, tags equal as maps. */
  lemma NoDifference(a: Snapshot, b: Snapshot)
    ensures Differences(a, b) == {} <==>
      (&& !FirstIssue(a, b)
       && !Renewed(a, b)
       && ImmutableAgree(a.spec, b.spec)
       && a.spec.options == b.spec.options
       && Denote(a.spec.tags) == Denote(b.spec.tags))
  {
    if Differences(a, b) == {} {
      assert forall p: Path :: !Differs(p, a, b) by {
        assert forall p: Path :: Differs(p, a, b) ==> p in Differences(a, b);
      }
      OnlyTagsDiffer(a, b);
      assert !Differs(TagList, a, b);
    }
  }

  /** The two names of a key algorithm differ in more than dashes against underscores. */
  ghost predicate OtherAlgorithm(a: string, b: string) {
    |a| != |b| || exists i :: 0 <= i < |a| && a[i] != b[i] && {a[i], b[i]} != {'-', '_'}
  }

  /** Field by field: the delta is empty exactly when nothing is to be exported and no compared field differs. */
  lemma NoDifferenceExactly(a: Snapshot, b: Snapshot)
    ensures Differences(a, b) == {} <==>
      (&& (a.spec.exportTo.Some? ==>
            && !(a.status.issuedAt.None? && b.status.status == Some("ISSUED"))
            && !(a.status.serial.Some? && b.status.serial.Some? && a.status.serial.value != b.status.serial.value))
       && !(a.spec.keyAlgorithm.Some? && b.spec.keyAlgorithm.Some?
            && OtherAlgorithm(a.spec.keyAlgorithm.value, b.spec.keyAlgorithm.value))
       && a.spec.certificateARN == b.spec.certificateARN
       && a.spec.certificateAuthorityARN == b.spec.certificateAuthorityARN
       && a.spec.certificateAuthorityRef == b.spec.certificateAuthorityRef
       && a.spec.domainName == b.spec.domainName
       && a.spec.options == b.spec.options
       && Denote(a.spec.tags) == Denote(b.spec.tags))
  {
    NoDifference(a, b);
    if a.spec.keyAlgorithm.Some? && b.spec.keyAlgorithm.Some? {
      SameSpelling(a.spec.keyAlgorithm.value, b.spec.keyAlgorithm.value);
    }
  }

  /** Which recordable paths lie under the paths the update asks about. */
  lemma UnderAsked(d: Path)
    ensures Under(d, IssuedAt) <==> d == IssuedAt
    ensures Under(d, Serial) <==> d == Serial
    ensures Under(d, TagList) <==> d == TagList
    ensures Under(d, Options) <==> d in {Options, LoggingPreference, Export}
  {
    var c := Components(d);
    assert Under(d, IssuedAt) ==> c[2] == LeafPart(IssuedAt);
    assert Under(d, Serial) ==> c[2] == LeafPart(Serial);
    assert Under(d, TagList) ==> c[1] == LeafPart(TagList);
    assert Under(d, Options) ==> c[1] == LeafPart(Options);
  }

  lemma AskedAt(a: Snapshot, b: Snapshot, p: Path)
    requires p in {IssuedAt, Serial, TagList}
    ensures At(Differences(a, b), p) <==> Differs(p, a, b)
  {
    forall d: Path
      ensures Under(d, p) <==> d == p
    {
      UnderAsked(d);
    }
    assert p in Differences(a, b) <==> Differs(p, a, b);
  }

  lemma AskedAtOptions(a: Snapshot, b: Snapshot)
    ensures At(Differences(a, b), Options) <==> a.spec.options != b.spec.options
  {
    forall d: Path
      ensures Under(d, Options) <==> d in {Options, LoggingPreference, Export}
    {
      UnderAsked(d);
    }
    if a.spec.options != b.spec.options {
      assert Differs(Options, a, b) || Differs(LoggingPreference, a, b) || Differs(Export, a, b);
      assert Options in Differences(a, b) || LoggingPreference in Differences(a, b) || Export in Differences(a, b);
    }
  }

  lemma AskedExceptTags(a: Snapshot, b: Snapshot)
    ensures !Except(Differences(a, b), TagList) <==>
      (&& !FirstIssue(a, b)
       && !Renewed(a, b)
       && ImmutableAgree(a.spec, b.spec)
       && a.spec.options == b.spec.options)
  {
    forall d: Path
      ensures Under(d, TagList) <==> d == TagList
    {
      UnderAsked(d);
    }
    if !Except(Differences(a, b), TagList) {
      assert forall d: Path :: d != TagList ==> !Differs(d, a, b) by {
        assert forall d: Path :: Differs(d, a, b) ==> d in Differences(a, b);
      }
      OnlyTagsDiffer(a, b);
    }
  }

  lemma OnlyTagsDiffer(a: Snapshot, b: Snapshot)
    requires forall d: Path :: d != TagList ==> !Differs(d, a, b)
    ensures !FirstIssue(a, b) && !Renewed(a, b) && ImmutableAgree(a.spec, b.spec) && a.spec.options == b.spec.options
  {
    assert !Differs(IssuedAt, a, b) && !Differs(Serial, a, b) && !Differs(KeyAlgorithm, a, b)
      && !Differs(CertificateARN, a, b) && !Differs(CertificateAuthorityARN, a, b)
      && !Differs(CertificateAuthorityRef, a, b) && !Differs(DomainName, a, b) && !Differs(Options, a, b)
      && !Differs(LoggingPreference, a, b) && !Differs(Export, a, b);
  }

  /** Two spellings are the same algorithm when they differ only in dashes against underscores. */
  lemma SameSpelling(a: string, b: string)
    ensures NormalizeKeyAlgorithm(a) == NormalizeKeyAlgorithm(b) <==>
      && |a| == |b|
      && forall i :: 0 <= i < |a| ==> a[i] == b[i] || {a[i], b[i]} == {'-', '_'}
  {
    if NormalizeKeyAlgorithm(a) == NormalizeKeyAlgorithm(b) {
      forall i | 0 <= i < |a|
        ensures a[i] == b[i] || {a[i], b[i]} == {'-', '_'}
      {
        assert NormalizeKeyAlgorithm(a)[i] == NormalizeKeyAlgorithm(b)[i];
      }
    }
    if |a| == |b| && forall i :: 0 <= i < |a| ==> a[i] == b[i] || {a[i], b[i]} == {'-', '_'} {
      forall i | 0 <= i < |a|
        ensures NormalizeKeyAlgorithm(a)[i] == NormalizeKeyAlgorithm(b)[i]
      {
        assert a[i] in {a[i], b[i]} && b[i] in {a[i], b[i]};
      }
    }
  }
}
