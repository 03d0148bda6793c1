/**
 Convergence: with ACM quiet and no call failing that ACM can carry out, how many updates a
 resource needs and when updating never ends.
 */
module Convergence {
  import opened Types
  import opened Tags
  import opened TagSync = SyncTags
  import opened Conditions
  import opened Describe
  import opened Delta
  import opened Update

  /** The recorded resource and the certificate in ACM. */
  datatype Site = Site(r: Snapshot, detail: CertificateDetail, tags: map<string, string>)

  /** ACM reports an issue time for an issued certificate, and the certificate was not imported. */
  ghost predicate Ordinary(s: Site) {
    && (s.detail.status == ISSUED ==> s.detail.issuedAt.Some?)
    && s.detail.ctype != IMPORTED
    && ImmutableAgree(s.r.spec, ObservedSpec(s.r.spec, s.detail, []))
  }

  function StoredOptions(d: CertificateDetail): SdkOptions {
    if d.options.Some? then d.options.value else SdkOptions("", "")
  }

  function Latest(s: Site, listing: seq<Tag>, id: Identity): Snapshot {
    Observe(s.r, s.detail, listing, id)
  }

  function Mirrored(s: Site, mirrored: seq<Tag>): Snapshot {
    s.r.(spec := s.r.spec.(tags := mirrored))
  }

  /** A read of the site: the listed tags, and the recorded tags with the listed AWS tags mirrored in. */
  ghost predicate Read(s: Site, listing: seq<Tag>, mirrored: seq<Tag>) {
    && Denote(listing) == s.tags
    && Lists(mirrored, WithAWSOf(Denote(s.r.spec.tags), s.tags), KeyOrder(s.r.spec.tags))
  }

  /** The differences a read finds. */
  function Found(s: Site, listing: seq<Tag>, mirrored: seq<Tag>, id: Identity): set<Path> {
    Differences(Mirrored(s, mirrored), Latest(s, listing, id))
  }

  /** The update fails by itself: there are no options to send, or the certificate is imported. */
  predicate Rejected(action: Action, desired: Snapshot) {
    action.Change? && (action.followUp.Refuse? || (action.followUp.PutOptions? && desired.spec.options.None?))
  }

  function TagsAfter(s: Site, action: Action, desired: Snapshot, listing: seq<Tag>): map<string, string> {
    if action.Change? && action.tags then Synced(s.tags, Denote(desired.spec.tags), Denote(listing)) else s.tags
  }

  function DetailAfter(s: Site, action: Action, desired: Snapshot): CertificateDetail {
    if action.Change? && action.followUp.PutOptions? && desired.spec.options.Some? then
      s.detail.(options := Some(Overlay(OptionsPayload(desired.spec).value, StoredOptions(s.detail))))
    else s.detail
  }

  /**
   One reconcile: nothing to do, an export, or tags and options, with the returned resource
   recorded. A rejected update has synchronised the tags by then, and records nothing.
   */
  function Reconciled(s: Site, listing: seq<Tag>, mirrored: seq<Tag>, id: Identity): Site {
    var desired, latest := Mirrored(s, mirrored), Latest(s, listing, id);
    var action := ActionFor(Found(s, listing, mirrored, id), latest);
    if Found(s, listing, mirrored, id) == {} then s.(r := latest)
    else if Rejected(action, desired) then s.(tags := TagsAfter(s, action, desired, listing))
    else Site(UpdatedBy(action, desired, latest, id), DetailAfter(s, action, desired),
              TagsAfter(s, action, desired, listing))
  }

  ghost predicate Step(s: Site, t: Site, id: Identity) {
    exists listing: seq<Tag>, mirrored: seq<Tag> ::
      Read(s, listing, mirrored) && t == Reconciled(s, listing, mirrored, id)
  }

  ghost predicate Run(sites: seq<Site>, id: Identity) {
    |sites| > 0 && forall i :: 0 <= i < |sites| - 1 ==> Step(sites[i], sites[i + 1], id)
  }

  // ---------- What is left to do ----------

  ghost predicate ExportDue(s: Site) {
    && s.r.spec.exportTo.Some?
    && (|| (s.r.status.issuedAt.None? && s.detail.status == ISSUED)
        || (s.r.status.serial.Some? && s.detail.serial.Some? && s.r.status.serial != s.detail.serial))
  }

  ghost predicate OptionsAgree(s: Site) {
    s.r.spec.options == ToOptions(s.detail.options)
  }

  /** The tags the certificate is to end up with: the user's, and the AWS-managed ones as they are. */
  function WantedTags(s: Site): map<string, string> {
    WithAWSOf(Denote(s.r.spec.tags), s.tags)
  }

  ghost predicate ChangesDue(s: Site) {
    !OptionsAgree(s) || WantedTags(s) != s.tags
  }

  /** Updates still needed. */
  ghost function Remaining(s: Site): nat {
    (if ExportDue(s) then 1 else 0) + (if ChangesDue(s) then 1 else 0)
  }

  /** A field can be brought to agree: it is set, or it is unset on both sides. */
  predicate FieldSettles(own: Option<string>, stored: string) {
    if own.Some? then own.value != "" else stored == ""
  }

  /** The options can be brought to agree: fully set where ACM has a value, or absent on both sides. */
  ghost predicate OptionsSettle(s: Site) {
    if s.r.spec.options.None? then s.detail.options.None?
    else
      && FieldSettles(s.r.spec.options.value.logging, StoredOptions(s.detail).logging)
      && FieldSettles(s.r.spec.options.value.exportable, StoredOptions(s.detail).exportable)
  }

  /** No update is needed exactly when a read, in whatever tag order, finds no difference. */
  lemma NothingRemains(s: Site, listing: seq<Tag>, mirrored: seq<Tag>, id: Identity)
    requires Ordinary(s) && Read(s, listing, mirrored)
    ensures Remaining(s) == 0 <==> Found(s, listing, mirrored, id) == {}
    ensures ExportDue(s) <==>
      || FirstIssue(Mirrored(s, mirrored), Latest(s, listing, id))
      || Renewed(Mirrored(s, mirrored), Latest(s, listing, id))
    ensures Denote(mirrored) == WantedTags(s)
    ensures Latest(s, listing, id).status.ctype != Some(IMPORTED)
  {
    ListingKeepsTheMap(mirrored, WantedTags(s), KeyOrder(s.r.spec.tags));
    NoDifference(Mirrored(s, mirrored), Latest(s, listing, id));
  }

  lemma MirroringTwice(own: map<string, string>, stored: map<string, string>)
    ensures WithAWSOf(WithAWSOf(own, stored), stored) == WithAWSOf(own, stored)
    ensures WithAWSOf(own, WithAWSOf(own, stored)) == WithAWSOf(own, stored)
    ensures WithAWSOf(WithAWSOf(own, stored), WithAWSOf(own, stored)) == WithAWSOf(own, stored)
    ensures WithAWSOf(stored, stored) == stored
  {
  }

  /** What an update of the options achieves. */
  lemma OptionsAfterUpdate(own: CertificateOptions, stored: SdkOptions, spec: CertificateSpec)
    requires spec.options == Some(own)
    ensures var after := Overlay(OptionsPayload(spec).value, stored);
      && (Some(own) == ToOptions(Some(after)) <==>
           FieldSettles(own.logging, stored.logging) && FieldSettles(own.exportable, stored.exportable))
      && (FieldSettles(own.logging, after.logging) <==> FieldSettles(own.logging, stored.logging))
      && (FieldSettles(own.exportable, after.exportable) <==> FieldSettles(own.exportable, stored.exportable))
  {
  }

  lemma EqualOptionsSettle(s: Site)
    requires OptionsAgree(s)
    ensures OptionsSettle(s)
  {
  }

  /** What every reconcile keeps. */
  ghost predicate Keeps(s: Site, t: Site) {
    && Ordinary(t)
    && !ExportDue(t)
    && (OptionsSettle(t) <==> OptionsSettle(s))
    && t.r.spec.options == s.r.spec.options
    && WantedTags(t) == WantedTags(s)
  }

  lemma ExportStep(s: Site, listing: seq<Tag>, mirrored: seq<Tag>, id: Identity)
    requires Ordinary(s) && Read(s, listing, mirrored) && ExportDue(s)
    ensures var t := Reconciled(s, listing, mirrored, id);
      Keeps(s, t) && (ChangesDue(t) <==> ChangesDue(s))
  {
    NothingRemains(s, listing, mirrored, id);
    ActionOnDifferences(Mirrored(s, mirrored), Latest(s, listing, id));
    MirroringTwice(Denote(s.r.spec.tags), s.tags);
  }

  lemma IdleStep(s: Site, listing: seq<Tag>, mirrored: seq<Tag>, id: Identity)
    requires Ordinary(s) && Read(s, listing, mirrored) && Remaining(s) == 0
    ensures var t := Reconciled(s, listing, mirrored, id);
      Keeps(s, t) && Remaining(t) == 0 && OptionsSettle(s)
  {
    NothingRemains(s, listing, mirrored, id);
    NoDifference(Mirrored(s, mirrored), Latest(s, listing, id));
    MirroringTwice(Denote(s.r.spec.tags), s.tags);
    EqualOptionsSettle(s);
    EqualOptionsSettle(Reconciled(s, listing, mirrored, id));
  }

  /** Whether the tags are synchronised or agree anyway, the certificate ends with the wanted ones. */
  lemma TagsAfterChange(s: Site, listing: seq<Tag>, mirrored: seq<Tag>, id: Identity)
    requires Ordinary(s) && Read(s, listing, mirrored) && !ExportDue(s) && Remaining(s) > 0
    ensures Reconciled(s, listing, mirrored, id).tags == WantedTags(s)
  {
    NothingRemains(s, listing, mirrored, id);
    ActionOnDifferences(Mirrored(s, mirrored), Latest(s, listing, id));
    SyncReachesDesired(s.tags, WantedTags(s), s.tags);
  }

  lemma OptionsAfterChange(s: Site, listing: seq<Tag>, mirrored: seq<Tag>, id: Identity)
    requires Ordinary(s) && Read(s, listing, mirrored) && !ExportDue(s) && Remaining(s) > 0
    ensures var t := Reconciled(s, listing, mirrored, id);
      && t.r.spec.options == s.r.spec.options
      && (OptionsSettle(t) <==> OptionsSettle(s))
      && (OptionsAgree(t) <==> OptionsSettle(s))
  {
    var desired, latest := Mirrored(s, mirrored), Latest(s, listing, id);
    NothingRemains(s, listing, mirrored, id);
    ActionOnDifferences(desired, latest);
    if s.r.spec.options.Some? && !OptionsAgree(s) {
      OptionsAfterUpdate(s.r.spec.options.value, StoredOptions(s.detail), desired.spec);
    } else if OptionsAgree(s) {
      EqualOptionsSettle(s);
    }
  }

  /** A rejected update leaves the record alone; the others record the mirrored spec and, if at all, the issue data. */
  lemma RecordAfterChange(s: Site, listing: seq<Tag>, mirrored: seq<Tag>, id: Identity)
    requires Ordinary(s) && Read(s, listing, mirrored) && !ExportDue(s) && Remaining(s) > 0
    ensures var t := Reconciled(s, listing, mirrored, id);
      && (t.r.spec == s.r.spec || t.r.spec == s.r.spec.(tags := mirrored))
      && t.detail == s.detail.(options := t.detail.options)
      && ((t.r.status.issuedAt == s.r.status.issuedAt && t.r.status.serial == s.r.status.serial)
          || (t.r.status.issuedAt == s.detail.issuedAt && t.r.status.serial == s.detail.serial))
  {
    NothingRemains(s, listing, mirrored, id);
  }

  lemma ChangeStep(s: Site, listing: seq<Tag>, mirrored: seq<Tag>, id: Identity)
    requires Ordinary(s) && Read(s, listing, mirrored) && !ExportDue(s) && Remaining(s) > 0
    ensures var t := Reconciled(s, listing, mirrored, id);
      Keeps(s, t) && (OptionsAgree(t) <==> OptionsSettle(s)) && WantedTags(t) == t.tags
  {
    RecordAfterChange(s, listing, mirrored, id);
    TagsAfterChange(s, listing, mirrored, id);
    OptionsAfterChange(s, listing, mirrored, id);
    var t := Reconciled(s, listing, mirrored, id);
    assert WantedTags(t) == t.tags == WantedTags(s) by {
      NothingRemains(s, listing, mirrored, id);
      MirroringTwice(Denote(s.r.spec.tags), s.tags);
    }
  }

  /** One reconcile works off an export if one is due, otherwise the tags and, if they can be, the options. */
  lemma OneStep(s: Site, t: Site, id: Identity)
    requires Ordinary(s) && Step(s, t, id)
    ensures Keeps(s, t)
    ensures ExportDue(s) ==> (ChangesDue(t) <==> ChangesDue(s))
    ensures !ExportDue(s) ==> (OptionsAgree(t) <==> OptionsSettle(s)) && WantedTags(t) == t.tags
    ensures Remaining(s) == 0 ==> Remaining(t) == 0
  {
    var listing: seq<Tag>, mirrored: seq<Tag> :|
      Read(s, listing, mirrored) && t == Reconciled(s, listing, mirrored, id);
    if ExportDue(s) {
      ExportStep(s, listing, mirrored, id);
    } else if Remaining(s) == 0 {
      IdleStep(s, listing, mirrored, id);
    } else {
      ChangeStep(s, listing, mirrored, id);
    }
  }

  lemma {:induction false} RunKeeps(sites: seq<Site>, id: Identity, i: nat)
    requires Run(sites, id) && Ordinary(sites[0]) && i < |sites|
    ensures Ordinary(sites[i])
    ensures OptionsSettle(sites[i]) <==> OptionsSettle(sites[0])
    ensures sites[i].r.spec.options == sites[0].r.spec.options
    ensures WantedTags(sites[i]) == WantedTags(sites[0])
    ensures i > 0 ==> !ExportDue(sites[i])
    ensures i > 1 ==> (OptionsAgree(sites[i]) <==> OptionsSettle(sites[0])) && WantedTags(sites[i]) == sites[i].tags
  {
    if i > 0 {
      RunKeeps(sites, id, i - 1);
      assert Step(sites[i - 1], sites[i - 1 + 1], id);
      OneStep(sites[i - 1], sites[i], id);
    }
  }

  // ---------- The update behind a reconcile ----------

  /** No call of the update has failed, other than sending options that are not there. */
  ghost predicate CallsSucceed(desired: Snapshot, before: Outside, after: Outside) {
    && after.tagCallsFailed == before.tagCallsFailed
    && (desired.spec.options.Some? ==> after.optionCallsFailed == before.optionCallsFailed)
  }

  /**
   A reconcile that changes tags or options is what the update operation does when no call fails:
   the same tags and options in ACM, the same resource to record, and an error exactly when rejected.
   */
  lemma ReconcileIsTheUpdate(s: Site, listing: seq<Tag>, mirrored: seq<Tag>, id: Identity, namespace: string,
                             passphrase: Result<string>, exported: Result<ExportResponse>, decrypt: Decrypt,
                             before: Outside, after: Outside, err: Option<Error>)
    requires Found(s, listing, mirrored, id) != {}
    requires before.tags == s.tags && before.options == StoredOptions(s.detail)
    requires CallsSucceed(Mirrored(s, mirrored), before, after)
    requires var action := ActionFor(Found(s, listing, mirrored, id), Latest(s, listing, id));
      && action.Change?
      && Updates(action, Mirrored(s, mirrored), Latest(s, listing, id), namespace, passphrase, exported, decrypt,
                 before, after, err)
    ensures var t := Reconciled(s, listing, mirrored, id);
      var action := ActionFor(Found(s, listing, mirrored, id), Latest(s, listing, id));
      && after.tags == t.tags
      && after.options == StoredOptions(t.detail)
      && (err.Some? <==> Rejected(action, Mirrored(s, mirrored)))
      && (err.None? ==> t.r == UpdatedBy(action, Mirrored(s, mirrored), Latest(s, listing, id), id))
      && (err.Some? ==> t.r == s.r)
  {
  }

  // ---------- Every site can be reconciled ----------

  lemma {:induction false} KeysCanBeListed(keys: set<string>) returns (order: seq<string>)
    ensures Distinct(order) && Keys(order) == keys
    decreases keys
  {
    order := [];
    if keys != {} {
      var k :| k in keys;
      var rest := KeysCanBeListed(keys - {k});
      DistinctAppend([k], rest);
      order := [k] + rest;
    }
  }

  lemma ReadIsPossible(s: Site) returns (listing: seq<Tag>, mirrored: seq<Tag>)
    ensures Read(s, listing, mirrored)
  {
    var keys := KeysCanBeListed(s.tags.Keys);
    assert forall k <- keys :: k in Keys(keys);
    listing := Render(keys, s.tags);
    RenderDenotes(keys, s.tags);
    assert forall k <- s.tags :: k in Keys(keys);
    assert Denote(listing) == s.tags;
    var wanted, order := WantedTags(s), KeyOrder(s.r.spec.tags);
    var extras := KeysCanBeListed(wanted.Keys - Keys(order));
    FirstsAreTheWanted(order, wanted.Keys);
    var firsts := Firsts(order, wanted.Keys);
    assert forall k <- firsts + extras :: k in Keys(firsts) || k in Keys(extras);
    mirrored := Render(firsts + extras, wanted);
    assert ListsWith(mirrored, wanted, order, extras);
  }

  /** From every site there is a run of any length. */
  lemma {:induction false} RunsExist(start: Site, id: Identity, n: nat) returns (sites: seq<Site>)
    ensures Run(sites, id) && sites[0] == start && |sites| == n + 1
  {
    if n == 0 {
      sites := [start];
    } else {
      var before := RunsExist(start, id, n - 1);
      var listing, mirrored := ReadIsPossible(before[n - 1]);
      var next := Reconciled(before[n - 1], listing, mirrored, id);
      assert Step(before[n - 1], next, id);
      sites := before + [next];
    }
  }

  // ---------- Main results ----------

  /** Each update that is needed and can succeed takes one off what remains. */
  lemma UpdatesMakeProgress(s: Site, t: Site, id: Identity)
    requires Ordinary(s) && OptionsSettle(s) && Step(s, t, id)
    ensures Remaining(t) == if Remaining(s) == 0 then 0 else Remaining(s) - 1
  {
    OneStep(s, t, id);
  }

  /** From the second reconcile on, no read in any run finds a difference. */
  ghost predicate Settles(start: Site, id: Identity) {
    forall sites: seq<Site>, i: nat, listing: seq<Tag>, mirrored: seq<Tag> ::
      Run(sites, id) && sites[0] == start && 2 <= i < |sites| && Read(sites[i], listing, mirrored) ==>
        Found(sites[i], listing, mirrored, id) == {}
  }

  /** Every read in every run finds a difference, so updating never ends. */
  ghost predicate NeverSettles(start: Site, id: Identity) {
    forall sites: seq<Site>, i: nat, listing: seq<Tag>, mirrored: seq<Tag> ::
      Run(sites, id) && sites[0] == start && i < |sites| && Read(sites[i], listing, mirrored) ==>
        Found(sites[i], listing, mirrored, id) != {}
  }

  /** What a read finds in a run, at any time. */
  lemma FoundInRun(sites: seq<Site>, id: Identity, i: nat, listing: seq<Tag>, mirrored: seq<Tag>)
    requires Run(sites, id) && Ordinary(sites[0]) && i < |sites| && Read(sites[i], listing, mirrored)
    ensures Found(sites[i], listing, mirrored, id) == {} ==> OptionsSettle(sites[0])
    ensures i > 1 && OptionsSettle(sites[0]) ==> Found(sites[i], listing, mirrored, id) == {}
  {
    RunKeeps(sites, id, i);
    NothingRemains(sites[i], listing, mirrored, id);
    if OptionsAgree(sites[i]) {
      EqualOptionsSettle(sites[i]);
    }
  }

  /**
   From the second reconcile on there is nothing left to update, in any run, exactly when the
   options can be brought to agree; otherwise every read of every run finds a difference.
   */
  lemma TwoUpdatesSettle(start: Site, id: Identity)
    requires Ordinary(start)
    ensures Settles(start, id) <==> OptionsSettle(start)
    ensures NeverSettles(start, id) <==> !OptionsSettle(start)
  {
    forall sites: seq<Site>, i: nat, listing: seq<Tag>, mirrored: seq<Tag> |
      Run(sites, id) && sites[0] == start && i < |sites| && Read(sites[i], listing, mirrored)
      ensures Found(sites[i], listing, mirrored, id) == {} ==> OptionsSettle(start)
      ensures i > 1 && OptionsSettle(start) ==> Found(sites[i], listing, mirrored, id) == {}
    {
      FoundInRun(sites, id, i, listing, mirrored);
    }
    var sites := RunsExist(start, id, 2);
    var listing, mirrored := ReadIsPossible(sites[2]);
    FoundInRun(sites, id, 2, listing, mirrored);
  }

  /**
   The update is rejected, at once and again at every later reconcile, exactly when ACM has options
   and the user none.
   */
  lemma RejectedForEver(sites: seq<Site>, id: Identity, i: nat, listing: seq<Tag>, mirrored: seq<Tag>)
    requires Run(sites, id) && Ordinary(sites[0]) && i < |sites| && Read(sites[i], listing, mirrored)
    requires i > 0 || !ExportDue(sites[0])
    ensures var action := ActionFor(Found(sites[i], listing, mirrored, id), Latest(sites[i], listing, id));
      Rejected(action, Mirrored(sites[i], mirrored)) <==>
        sites[0].r.spec.options.None? && sites[0].detail.options.Some?
  {
    RunKeeps(sites, id, i);
    NothingRemains(sites[i], listing, mirrored, id);
    ActionOnDifferences(Mirrored(sites[i], mirrored), Latest(sites[i], listing, id));
  }

  /**
   What the user wanted at the start reaches ACM: from the second reconcile on the certificate has
   exactly the user's tags and the AWS-managed ones, and exactly the user's options if and only if
   those can be brought to agree.
   */
  lemma SettledMeansApplied(sites: seq<Site>, id: Identity, i: nat)
    requires Run(sites, id) && Ordinary(sites[0]) && 2 <= i < |sites|
    ensures sites[i].tags == WithAWSOf(Denote(sites[0].r.spec.tags), sites[0].tags)
    ensures ToOptions(sites[i].detail.options) == sites[0].r.spec.options <==> OptionsSettle(sites[0])
  {
    RunKeeps(sites, id, i);
  }
}
