/**
 From the request to the settled certificate: what creation and late initialization leave for the
 updates to do.
 */
module Lifecycle {
  import opened Types
  import opened Tags
  import opened Conditions
  import opened Describe
  import opened Delta
  import opened LateInit
  import opened Update
  import opened Convergence
  import Create

  /** Later descriptions of a certificate agree on what was requested; it may have been issued since. */
  ghost predicate SameCertificate(d: CertificateDetail, now: CertificateDetail) {
    && now.certificateAuthorityArn == d.certificateAuthorityArn
    && now.domainName == d.domainName
    && now.keyAlgorithm == d.keyAlgorithm
    && now.options == d.options
    && now.ctype != IMPORTED
    && (now.status == ISSUED ==> now.issuedAt.Some?)
  }

  /** The resource as recorded after creation and late initialization, with the certificate ACM has made. */
  ghost predicate Begins(desired: Snapshot, arn: Option<string>, d: CertificateDetail, remote: seq<Tag>,
                         id: Identity, start: Site) {
    var created := desired.(status := Create.Created(desired.status, arn, id));
    && Create.Stores(Create.RequestFor(desired.spec), d, remote)
    && LateInitialized(created, Observe(created, d, remote, id), start.r)
    && SameCertificate(d, start.detail)
    && start.tags == Denote(remote)
  }

  /** Options a request or an update can bring about: none, or logging chosen and nothing set to the empty string. */
  predicate OptionsAttainable(spec: CertificateSpec) {
    || spec.options.None?
    || (&& spec.options.value.logging.Some?
        && spec.options.value.logging.value != ""
        && spec.options.value.exportable != Some(""))
  }

  lemma OptionsAtTheBeginning(desired: Snapshot, arn: Option<string>, d: CertificateDetail, remote: seq<Tag>,
                              id: Identity, start: Site)
    requires Begins(desired, arn, d, remote, id, start)
    ensures OptionsSettle(start) <==> OptionsAttainable(desired.spec)
    ensures OptionsAgree(start) <==> Create.OptionsRequestable(desired.spec)
  {
    var created := desired.(status := Create.Created(desired.status, arn, id));
    LateInitializationSettles(created, Observe(created, d, remote, id), start.r);
  }

  lemma TagsAtTheBeginning(desired: Snapshot, arn: Option<string>, d: CertificateDetail, remote: seq<Tag>,
                           id: Identity, start: Site)
    requires Begins(desired, arn, d, remote, id, start)
    ensures WantedTags(start) == start.tags
  {
    var own, stored := Denote(desired.spec.tags), Denote(remote);
    Create.MirroredIsStored(own, stored);
    ListingKeepsTheMap(start.r.spec.tags, WithAWSOf(own, stored), KeyOrder(desired.spec.tags));
    MirroringTwice(own, stored);
  }

  lemma {:induction false} NothingButTheExport(sites: seq<Site>, id: Identity, i: nat)
    requires Run(sites, id) && Ordinary(sites[0]) && !ChangesDue(sites[0]) && 0 < i < |sites|
    ensures Remaining(sites[i]) == 0
  {
    RunKeeps(sites, id, i - 1);
    assert Step(sites[i - 1], sites[i - 1 + 1], id);
    OneStep(sites[i - 1], sites[i], id);
    if i > 1 {
      NothingButTheExport(sites, id, i - 1);
    }
  }

  // ---------- Main results ----------

  /**
   A certificate created from an attainable spec settles, and from any other it never does; from a
   requestable spec its first export is the only update it ever needs.
   */
  lemma CreatedSettles(desired: Snapshot, arn: Option<string>, d: CertificateDetail, remote: seq<Tag>,
                       id: Identity, start: Site)
    requires Begins(desired, arn, d, remote, id, start)
    requires desired.spec.keyAlgorithm != Some("")
    ensures Ordinary(start)
    ensures Settles(start, id) <==> OptionsAttainable(desired.spec)
    ensures NeverSettles(start, id) <==> !OptionsAttainable(desired.spec)
    ensures ChangesDue(start) <==> !Create.OptionsRequestable(desired.spec)
    ensures Create.OptionsRequestable(desired.spec) ==>
      forall sites: seq<Site>, i: nat ::
        Run(sites, id) && sites[0] == start && 0 < i < |sites| ==> Remaining(sites[i]) == 0
  {
    OptionsAtTheBeginning(desired, arn, d, remote, id, start);
    TagsAtTheBeginning(desired, arn, d, remote, id, start);
    TwoUpdatesSettle(start, id);
    if Create.OptionsRequestable(desired.spec) {
      forall sites: seq<Site>, i: nat | Run(sites, id) && sites[0] == start && 0 < i < |sites|
        ensures Remaining(sites[i]) == 0
      {
        NothingButTheExport(sites, id, i);
      }
    }
  }

  /** The first read finds a difference in the key algorithm exactly when it was set to the empty string. */
  lemma EmptyKeyAlgorithmDiffers(desired: Snapshot, arn: Option<string>, d: CertificateDetail, remote: seq<Tag>,
                                 id: Identity, start: Site, listing: seq<Tag>, mirrored: seq<Tag>)
    requires Begins(desired, arn, d, remote, id, start)
    requires Read(start, listing, mirrored)
    ensures KeyAlgorithm in Found(start, listing, mirrored, id) <==> desired.spec.keyAlgorithm == Some("")
    ensures Ordinary(start) <==> desired.spec.keyAlgorithm != Some("")
  {
  }
}
