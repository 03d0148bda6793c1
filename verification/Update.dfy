/**
 Acting on a difference: `exportCertificate` of hooks.go, `sdkUpdate` of sdk.go and `Update` of
 manager.go.
 */
module Update {
  import opened Types
  import opened Tags
  import opened TagSync = SyncTags
  import opened Conditions
  import opened Describe
  import opened Delta

  const TLS_KEY := "tls.key"
  const IMPORTED := "IMPORTED"
  const ONLY_TAGS := TerminalError(OtherError("only tags can be updated for an imported certificate"))

  // ---------- Exporting ----------

  datatype ExportResponse = ExportResponse(certificate: string, chain: Option<string>, privateKey: string)

  /** Decrypting a private key: encrypted PEM, passphrase and key algorithm. */
  type Decrypt = (string, string, string) -> Result<string>

  function FullChain(response: ExportResponse): string {
    if response.chain.Some? && response.chain.value != "" then response.certificate + response.chain.value
    else response.certificate
  }

  /** Where the chain is written: in the resource's own namespace unless another is named. */
  function ChainTarget(namespace: string, exportTo: SecretKeyReference): SecretKeyReference {
    if exportTo.namespace != "" then exportTo else exportTo.(namespace := namespace)
  }

  function KeyTarget(namespace: string, exportTo: SecretKeyReference): SecretKeyReference {
    ChainTarget(namespace, exportTo).(key := TLS_KEY)
  }

  /** The Secret entry with the given key that an export writes, in the named namespace or the resource's own. */
  function EntryOf(namespace: string, exportTo: SecretKeyReference, key: string): SecretKeyReference {
    SecretKeyReference(if exportTo.namespace == "" then namespace else exportTo.namespace, exportTo.name, key)
  }

  /** The certificate first, then the chain it was answered with, if any. */
  ghost predicate LeafFirst(entry: string, response: ExportResponse) {
    && |response.certificate| <= |entry|
    && entry[..|response.certificate|] == response.certificate
    && entry[|response.certificate|..] == if response.chain.Some? then response.chain.value else ""
  }

  lemma ChainIsLeafFirst(response: ExportResponse)
    ensures LeafFirst(FullChain(response), response)
  {
  }

  /** The Kubernetes Secrets. A failed write may have been carried out. */
  class SecretStore {
    var data: map<SecretKeyReference, string>
    /** How many writes have been reported as failed. */
    ghost var failures: nat
    /** The error of the last of them. */
    ghost var reported: Option<Error>

    method WriteToSecret(value: string, namespace: string, name: string, key: string) returns (err: Option<Error>)
      modifies this
      ensures failures == old(failures) + if err.Some? then 1 else 0
      ensures reported == if err.Some? then err else old(reported)
      ensures err.None? ==> data == old(data)[SecretKeyReference(namespace, name, key) := value]
      ensures data == old(data) || data == old(data)[SecretKeyReference(namespace, name, key) := value]
    {
      err := *;
      var written: bool := *;
      if err.None? || written {
        data := data[SecretKeyReference(namespace, name, key) := value];
      }
      if err.Some? {
        failures, reported := failures + 1, err;
      }
    }
  }

  function Exported(data: map<SecretKeyReference, string>, namespace: string, exportTo: SecretKeyReference,
                    response: ExportResponse, plainKey: string): map<SecretKeyReference, string> {
    data[ChainTarget(namespace, exportTo) := FullChain(response)][KeyTarget(namespace, exportTo) := plainKey]
  }

  /** A finished export: both parts of one response are written, or there was nowhere to export to. */
  ghost predicate ExportDone(before: map<SecretKeyReference, string>, after: map<SecretKeyReference, string>,
                             namespace: string, spec: CertificateSpec, passphrase: Result<string>,
                             exported: Result<ExportResponse>, decrypt: Decrypt) {
    if spec.exportTo.None? then after == before else
      && passphrase.Ok? && exported.Ok? && spec.keyAlgorithm.Some?
      && var plain := decrypt(exported.value.privateKey, passphrase.value, spec.keyAlgorithm.value);
      && plain.Ok?
      && after == Exported(before, namespace, spec.exportTo.value, exported.value, plain.value)
  }

  /** A failed export: nothing is written, or the chain only, or both parts with the success lost. */
  ghost predicate ExportFailed(before: map<SecretKeyReference, string>, after: map<SecretKeyReference, string>,
                               namespace: string, spec: CertificateSpec, passphrase: Result<string>,
                               exported: Result<ExportResponse>, decrypt: Decrypt) {
    && spec.exportTo.Some?
    && (|| after == before
        || (&& passphrase.Ok? && exported.Ok?
            && after == before[ChainTarget(namespace, spec.exportTo.value) := FullChain(exported.value)])
        || ExportDone(before, after, namespace, spec, passphrase, exported, decrypt))
  }

  /** Why an export failed: the first step that did; `reported` is the error of a failed write. */
  ghost function ExportCause(spec: CertificateSpec, passphrase: Result<string>, exported: Result<ExportResponse>,
                             decrypt: Decrypt, writeFailed: bool, reported: Option<Error>): Option<Error> {
    if passphrase.Err? then Some(passphrase.error)
    else if exported.Err? then Some(exported.error)
    else if writeFailed || spec.keyAlgorithm.None? then reported
    else
      var plain := decrypt(exported.value.privateKey, passphrase.value, spec.keyAlgorithm.value);
      if plain.Err? then Some(plain.error) else None
  }

  /** `exported` is ACM's answer to the export call. The chain is written before the key is decrypted. */
  method ExportCertificate(r: Certificate, passphrase: Result<string>, exported: Result<ExportResponse>,
                           decrypt: Decrypt, secrets: SecretStore)
    returns (err: Option<Error>)
    requires r.spec.exportTo.Some? && passphrase.Ok? && exported.Ok? ==> r.spec.keyAlgorithm.Some?
    modifies secrets
    ensures err == if r.spec.exportTo.None? then None else
      ExportCause(r.spec, passphrase, exported, decrypt, secrets.failures != old(secrets.failures), secrets.reported)
    ensures err.None? ==>
      ExportDone(old(secrets.data), secrets.data, r.namespace, r.spec, passphrase, exported, decrypt)
    ensures err.Some? ==>
      ExportFailed(old(secrets.data), secrets.data, r.namespace, r.spec, passphrase, exported, decrypt)
    ensures r.spec.exportTo.Some? && err.None? && r.spec.exportTo.value.key != "tls.key" ==>
      var chain := EntryOf(r.namespace, r.spec.exportTo.value, r.spec.exportTo.value.key);
      chain in secrets.data && LeafFirst(secrets.data[chain], exported.value)
  {
    if r.spec.exportTo.None? {
      return None;
    }
    if passphrase.Err? {
      return Some(passphrase.error);
    }
    if exported.Err? {
      return Some(exported.error);
    }
    ChainIsLeafFirst(exported.value);
    var exportTo := r.spec.exportTo.value;
    var certificateChain := exported.value.certificate;
    if exported.value.chain.Some? && exported.value.chain.value != "" {
      certificateChain := certificateChain + exported.value.chain.value;
    }
    if exportTo.namespace != "" {
      err := secrets.WriteToSecret(certificateChain, exportTo.namespace, exportTo.name, exportTo.key);
    } else {
      err := secrets.WriteToSecret(certificateChain, r.namespace, exportTo.name, exportTo.key);
    }
    if err.Some? {
      return;
    }
    var decryptedKey := decrypt(exported.value.privateKey, passphrase.value, r.spec.keyAlgorithm.value);
    if decryptedKey.Err? {
      return Some(decryptedKey.error);
    }
    if exportTo.namespace != "" {
      err := secrets.WriteToSecret(decryptedKey.value, exportTo.namespace, exportTo.name, TLS_KEY);
    } else {
      err := secrets.WriteToSecret(decryptedKey.value, r.namespace, exportTo.name, TLS_KEY);
    }
  }

  /**
   After a complete export both parts can be read back, from the entries the resource names, exactly
   when the chain has a key of its own; the chain then begins with the certificate itself.
   */
  lemma ExportIsReadBack(data: map<SecretKeyReference, string>, namespace: string, exportTo: SecretKeyReference,
                         response: ExportResponse, plainKey: string)
    ensures var after := Exported(data, namespace, exportTo, response, plainKey);
      && after[KeyTarget(namespace, exportTo)] == plainKey
      && (after[ChainTarget(namespace, exportTo)] == FullChain(response)
          <==> exportTo.key != TLS_KEY || FullChain(response) == plainKey)
      && (exportTo.key != TLS_KEY ==> LeafFirst(after[ChainTarget(namespace, exportTo)], response))
      && (forall t <- data ::
           t == ChainTarget(namespace, exportTo) || t == KeyTarget(namespace, exportTo) || after[t] == data[t])
  {
    ChainIsLeafFirst(response);
  }

  /** A finished export, entry by entry: the key under "tls.key", the chain under its own key, nothing else. */
  lemma FinishedExport(before: map<SecretKeyReference, string>, after: map<SecretKeyReference, string>,
                       namespace: string, spec: CertificateSpec, passphrase: Result<string>,
                       exported: Result<ExportResponse>, decrypt: Decrypt)
    requires spec.exportTo.Some?
    requires ExportDone(before, after, namespace, spec, passphrase, exported, decrypt)
    ensures passphrase.Ok? && exported.Ok? && spec.keyAlgorithm.Some?
    ensures var chain := EntryOf(namespace, spec.exportTo.value, spec.exportTo.value.key);
      var key := EntryOf(namespace, spec.exportTo.value, "tls.key");
      && key in after
      && decrypt(exported.value.privateKey, passphrase.value, spec.keyAlgorithm.value) == Ok(after[key])
      && (spec.exportTo.value.key != "tls.key" ==> chain in after && LeafFirst(after[chain], exported.value))
      && (forall t :: t != chain && t != key ==> (t in after <==> t in before))
      && (forall t <- before :: t != chain && t != key ==> after[t] == before[t])
  {
    ChainIsLeafFirst(exported.value);
  }

  /** A failed export has at most written entries a finished one writes, the key only together with the chain. */
  lemma FailedExport(before: map<SecretKeyReference, string>, after: map<SecretKeyReference, string>,
                     namespace: string, spec: CertificateSpec, passphrase: Result<string>,
                     exported: Result<ExportResponse>, decrypt: Decrypt)
    requires ExportFailed(before, after, namespace, spec, passphrase, exported, decrypt)
    ensures spec.exportTo.Some?
    ensures var chain := EntryOf(namespace, spec.exportTo.value, spec.exportTo.value.key);
      var key := EntryOf(namespace, spec.exportTo.value, "tls.key");
      && (passphrase.Err? || exported.Err? ==> after == before)
      && (forall t :: t != chain && t != key ==> (t in after <==> t in before))
      && (forall t <- before :: t != chain && t != key ==> after[t] == before[t])
      && (spec.exportTo.value.key != "tls.key" && after != before ==>
           chain in after && LeafFirst(after[chain], exported.value))
      && (spec.exportTo.value.key != "tls.key" && key in after ==>
           || (key in before && after[key] == before[key])
           || (spec.keyAlgorithm.Some? && passphrase.Ok?
               && decrypt(exported.value.privateKey, passphrase.value, spec.keyAlgorithm.value) == Ok(after[key])))
  {
    if exported.Ok? {
      ChainIsLeafFirst(exported.value);
    }
  }

  /** The error reported is that of the step that failed, and the steps before it had succeeded. */
  lemma CauseOfAFailedExport(spec: CertificateSpec, passphrase: Result<string>, exported: Result<ExportResponse>,
                             decrypt: Decrypt, writeFailed: bool, reported: Option<Error>)
    requires spec.keyAlgorithm.Some?
    ensures var cause := ExportCause(spec, passphrase, exported, decrypt, writeFailed, reported);
      && (passphrase.Err? ==> cause == Some(passphrase.error))
      && (passphrase.Ok? && exported.Err? ==> cause == Some(exported.error))
      && (passphrase.Ok? && exported.Ok? ==>
           var plain := decrypt(exported.value.privateKey, passphrase.value, spec.keyAlgorithm.value);
           && (writeFailed ==> cause == reported)
           && (!writeFailed && plain.Err? ==> cause == Some(plain.error))
           && (!writeFailed && plain.Ok? ==> cause.None?))
  {
  }

  // ---------- Options ----------

  /** Options as stored after an update: a field not sent keeps its value. */
  function Overlay(sent: SdkOptions, stored: SdkOptions): SdkOptions {
    SdkOptions(if sent.logging != "" then sent.logging else stored.logging,
               if sent.exportable != "" then sent.exportable else stored.exportable)
  }

  function OptionsPayload(spec: CertificateSpec): Option<SdkOptions> {
    if spec.options.None? then None
    else Some(SdkOptions(if spec.options.value.logging.Some? then spec.options.value.logging.value else "",
                         if spec.options.value.exportable.Some? then spec.options.value.exportable.value else ""))
  }

  const OPTIONS_REQUIRED := OtherError("missing required field, UpdateCertificateOptionsInput.Options")

  /** The certificate's options in ACM; an update without options is rejected before it is sent. */
  class RemoteOptions {
    var stored: SdkOptions
    /** How many calls have failed. */
    ghost var failures: nat
    /** The error of the last of them. */
    ghost var reported: Option<Error>

    method UpdateCertificateOptions(sent: Option<SdkOptions>) returns (err: Option<Error>)
      modifies this
      ensures failures == old(failures) + if err.Some? then 1 else 0
      ensures reported == if err.Some? then err else old(reported)
      ensures sent.None? ==> err == Some(OPTIONS_REQUIRED)
      ensures err.None? ==> stored == Overlay(sent.value, old(stored))
      ensures stored == old(stored) || (sent.Some? && stored == Overlay(sent.value, old(stored)))
    {
      err := *;
      if sent.None? {
        err := Some(OPTIONS_REQUIRED);
      } else {
        var carriedOut: bool := *;
        if err.None? || carriedOut {
          stored := Overlay(sent.value, stored);
        }
      }
      if err.Some? {
        failures, reported := failures + 1, err;
      }
    }
  }

  // ---------- The update ----------

  datatype FollowUp = Nothing | Refuse | PutOptions

  datatype Action = ExportNow | Change(tags: bool, followUp: FollowUp)

  /** What the update does about a set of differences. */
  function ActionFor(delta: set<Path>, latest: Snapshot): Action {
    if At(delta, IssuedAt) || At(delta, Serial) then ExportNow
    else Change(At(delta, TagList),
                if !Except(delta, TagList) then Nothing
                else if latest.status.ctype == Some(IMPORTED) then
                  if At(delta, Options) then Refuse else Nothing
                else PutOptions)
  }

  /** The observed issue data takes the place of the recorded one. */
  function WithIssue(status: CertificateStatus, latest: CertificateStatus): CertificateStatus {
    status.(issuedAt := latest.issuedAt, status := latest.status, serial := latest.serial)
  }

  /** The resource a successful update returns. */
  function UpdatedBy(action: Action, desired: Snapshot, latest: Snapshot, id: Identity): Snapshot {
    if action.Change? && action.followUp.Nothing? then desired
    else Snapshot(desired.spec, WithIssue(WithDefaults(desired.status, id), latest.status))
  }

  /**
   What a successful update returns: the desired spec, and after anything but a change of tags the
   observed issue time, status and serial, with the other status fields as recorded.
   */
  lemma UpdatedCarriesTheIssue(action: Action, desired: Snapshot, latest: Snapshot, id: Identity)
    ensures var updated := UpdatedBy(action, desired, latest, id);
      && updated.spec == desired.spec
      && (action.Change? && action.followUp.Nothing? ==> updated == desired)
      && (action.ExportNow? || !action.followUp.Nothing? ==>
           && updated.status.issuedAt == latest.status.issuedAt
           && updated.status.status == latest.status.status
           && updated.status.serial == latest.status.serial
           && updated.status == desired.status.(
                metadata := updated.status.metadata, issuedAt := updated.status.issuedAt,
                status := updated.status.status, serial := updated.status.serial)
           && updated.status.metadata == WithDefaults(desired.status, id).metadata)
  {
  }

  /** The pointers an action dereferences are there. */
  ghost predicate NothingNilIsUsed(action: Action, desired: Snapshot, latest: Snapshot,
                                   passphrase: Result<string>, exported: Result<ExportResponse>) {
    && (action.ExportNow? && latest.spec.exportTo.Some? && passphrase.Ok? && exported.Ok? ==>
         latest.spec.keyAlgorithm.Some?)
    && (action.Change? && action.tags ==>
         desired.status.HasARN() && Usable(desired.spec.tags) && Usable(latest.spec.tags))
  }

  /** What an update can change outside the resource, and how many of its calls have failed. */
  datatype Outside = Outside(
    data: map<SecretKeyReference, string>, writesFailed: nat, writeError: Option<Error>,
    tags: map<string, string>, tagCalls: nat, tagCallsFailed: nat, tagError: Option<Error>,
    options: SdkOptions, optionCallsFailed: nat, optionError: Option<Error>)

  ghost function OutsideOf(secrets: SecretStore, remoteTags: RemoteTags, remoteOptions: RemoteOptions): Outside
    reads secrets, remoteTags, remoteOptions
  {
    Outside(secrets.data, secrets.failures, secrets.reported,
            remoteTags.store, remoteTags.calls, remoteTags.failures, remoteTags.reported,
            remoteOptions.stored, remoteOptions.failures, remoteOptions.reported)
  }

  /** Everything outside the resource is touched only by the action it belongs to. */
  ghost predicate OthersUntouched(action: Action, before: Outside, after: Outside) {
    && (action.Change? ==> after.data == before.data && after.writesFailed == before.writesFailed)
    && (action.ExportNow? || !action.tags ==>
         && after.tags == before.tags && after.tagCalls == before.tagCalls
         && after.tagCallsFailed == before.tagCallsFailed)
    && (action.ExportNow? || !action.followUp.PutOptions? ==>
         after.options == before.options && after.optionCallsFailed == before.optionCallsFailed)
  }

  /** An export is done or failed in one of the ways it can fail. */
  ghost predicate ExportActed(latest: Snapshot, namespace: string, passphrase: Result<string>,
                              exported: Result<ExportResponse>, decrypt: Decrypt,
                              before: Outside, after: Outside, failed: bool) {
    && var cause := ExportCause(latest.spec, passphrase, exported, decrypt,
                                after.writesFailed != before.writesFailed, after.writeError);
    && failed == (latest.spec.exportTo.Some? && cause.Some?)
    && if failed then ExportFailed(before.data, after.data, namespace, latest.spec, passphrase, exported, decrypt)
       else ExportDone(before.data, after.data, namespace, latest.spec, passphrase, exported, decrypt)
  }

  /**
   A change fails exactly when it is refused or a call fails; otherwise tags and options are as
   desired. The tags come first, and when they fail the options are not touched.
   */
  ghost predicate ChangeActed(action: Action, desired: Snapshot, latest: Snapshot,
                              before: Outside, after: Outside, failed: bool)
    requires action.Change?
  {
    var wanted, known := Denote(desired.spec.tags), Denote(latest.spec.tags);
    && (failed <==> action.followUp.Refuse? || after.tagCallsFailed != before.tagCallsFailed
                    || after.optionCallsFailed != before.optionCallsFailed)
    && (action.tags ==> Intermediate(before.tags, wanted, known, after.tags))
    && (action.tags && after.tagCallsFailed == before.tagCallsFailed ==>
         after.tags == Synced(before.tags, wanted, known))
    && (after.tagCallsFailed != before.tagCallsFailed ==>
         after.options == before.options && after.optionCallsFailed == before.optionCallsFailed)
    && (after.options == before.options || OptionsApplied(desired.spec, before.options, after.options))
    && (action.followUp.PutOptions? && !failed ==> OptionsApplied(desired.spec, before.options, after.options))
  }

  ghost predicate OptionsApplied(spec: CertificateSpec, before: SdkOptions, after: SdkOptions) {
    spec.options.Some? && after == Overlay(OptionsPayload(spec).value, before)
  }

  /** What an action does outside the resource, whether it fails or not. */
  ghost predicate Acted(action: Action, desired: Snapshot, latest: Snapshot, namespace: string,
                        passphrase: Result<string>, exported: Result<ExportResponse>, decrypt: Decrypt,
                        before: Outside, after: Outside, failed: bool) {
    && OthersUntouched(action, before, after)
    && match action
       case ExportNow => ExportActed(latest, namespace, passphrase, exported, decrypt, before, after, failed)
       case Change(_, _) => ChangeActed(action, desired, latest, before, after, failed)
  }

  /** Why an action failed: the first step that did. */
  ghost function Cause(action: Action, latest: Snapshot, passphrase: Result<string>,
                       exported: Result<ExportResponse>, decrypt: Decrypt,
                       before: Outside, after: Outside): Option<Error> {
    if action.ExportNow? then
      ExportCause(latest.spec, passphrase, exported, decrypt,
                  after.writesFailed != before.writesFailed, after.writeError)
    else if after.tagCallsFailed != before.tagCallsFailed then after.tagError
    else if action.followUp.Refuse? then Some(ONLY_TAGS)
    else after.optionError
  }

  /** All an update does outside the resource, and why it failed if it did. */
  ghost predicate Updates(action: Action, desired: Snapshot, latest: Snapshot, namespace: string,
                          passphrase: Result<string>, exported: Result<ExportResponse>, decrypt: Decrypt,
                          before: Outside, after: Outside, err: Option<Error>) {
    && Acted(action, desired, latest, namespace, passphrase, exported, decrypt, before, after, err.Some?)
    && (err.Some? ==> err == Cause(action, latest, passphrase, exported, decrypt, before, after))
  }

  /** The error of a failed change: of the tags if they failed, then of the refusal or of the options. */
  lemma CauseOfAFailedChange(action: Action, latest: Snapshot, passphrase: Result<string>,
                             exported: Result<ExportResponse>, decrypt: Decrypt, before: Outside, after: Outside)
    requires action.Change?
    ensures var cause := Cause(action, latest, passphrase, exported, decrypt, before, after);
      && (after.tagCallsFailed != before.tagCallsFailed ==> cause == after.tagError)
      && (after.tagCallsFailed == before.tagCallsFailed && action.followUp.Refuse? ==> cause == Some(ONLY_TAGS))
      && (after.tagCallsFailed == before.tagCallsFailed && action.followUp.PutOptions? ==> cause == after.optionError)
  {
  }

  method CopyWithIssue(desired: Certificate, latest: Certificate, id: Identity) returns (ko: Certificate)
    ensures fresh(ko) && ko.spec == desired.spec
    ensures ko.status == WithIssue(WithDefaults(desired.status, id), latest.status)
    ensures Values(ko.conditions) == Values(desired.conditions)
  {
    ko := CopyWithDefaults(desired, id);
    ko.status := ko.status.(issuedAt := latest.status.issuedAt);
    ko.status := ko.status.(status := latest.status.status);
    ko.status := ko.status.(serial := latest.status.serial);
  }

  /** Both kinds of issue lead to the same export. */
  method ExportLatest(desired: Certificate, latest: Certificate, id: Identity, passphrase: Result<string>,
                      exported: Result<ExportResponse>, decrypt: Decrypt, secrets: SecretStore)
    returns (updated: Certificate?, err: Option<Error>)
    requires latest.spec.exportTo.Some? && passphrase.Ok? && exported.Ok? ==> latest.spec.keyAlgorithm.Some?
    modifies secrets
    ensures updated == null <==> err.Some?
    ensures updated != null ==> updated.Value() == UpdatedBy(ExportNow, desired.Value(), latest.Value(), id)
    ensures updated != null ==>
      && updated.status.issuedAt == latest.status.issuedAt
      && updated.status.status == latest.status.status
      && updated.status.serial == latest.status.serial
    ensures updated != null ==> Values(updated.conditions) == Values(desired.conditions)
    ensures err == if latest.spec.exportTo.None? then None else
      ExportCause(latest.spec, passphrase, exported, decrypt,
                  secrets.failures != old(secrets.failures), secrets.reported)
    ensures if err.Some? then
        ExportFailed(old(secrets.data), secrets.data, latest.namespace, latest.spec, passphrase, exported, decrypt)
      else ExportDone(old(secrets.data), secrets.data, latest.namespace, latest.spec, passphrase, exported, decrypt)
  {
    err := ExportCertificate(latest, passphrase, exported, decrypt, secrets);
    if err.Some? {
      return null, err;
    }
    updated := CopyWithIssue(desired, latest, id);
  }

  /** What is left after the tags: nothing, a refusal or the options. */
  method FollowUpOn(followUp: FollowUp, desired: Certificate, latest: Certificate, id: Identity,
                    remoteOptions: RemoteOptions)
    returns (updated: Certificate?, err: Option<Error>)
    modifies remoteOptions
    ensures updated == null <==> err.Some?
    ensures updated != null ==> Values(updated.conditions) == Values(desired.conditions)
    ensures updated != null ==>
      updated.Value() == UpdatedBy(Change(false, followUp), desired.Value(), latest.Value(), id)
    ensures followUp.Refuse? ==> err == Some(ONLY_TAGS)
    ensures followUp.Nothing? ==> err == None
    ensures !followUp.PutOptions? ==>
      remoteOptions.stored == old(remoteOptions.stored) && remoteOptions.failures == old(remoteOptions.failures)
    ensures followUp.PutOptions? ==>
      && (err.Some? <==> remoteOptions.failures != old(remoteOptions.failures))
      && (err.Some? ==> err == remoteOptions.reported)
      && (remoteOptions.stored == old(remoteOptions.stored)
          || OptionsApplied(desired.spec, old(remoteOptions.stored), remoteOptions.stored))
      && (err.None? ==> OptionsApplied(desired.spec, old(remoteOptions.stored), remoteOptions.stored))
  {
    match followUp {
      case Nothing => return desired, None;
      case Refuse => return null, Some(ONLY_TAGS);
      case PutOptions =>
        err := remoteOptions.UpdateCertificateOptions(OptionsPayload(desired.spec));
        if err.Some? {
          return null, err;
        }
        updated := CopyWithIssue(desired, latest, id);
    }
  }

  /** The questions the update asks about the differences, in its order. */
  method NextAction(latest: Certificate, delta: ResourceDelta) returns (action: Action)
    ensures action == ActionFor(delta.Paths(), latest.Value())
  {
    var issued := delta.DifferentAt(IssuedAt);
    if issued {
      return ExportNow;
    }
    var renewed := delta.DifferentAt(Serial);
    if renewed {
      return ExportNow;
    }
    var tagsDiffer := delta.DifferentAt(TagList);
    var more := delta.DifferentExcept(TagList);
    if !more {
      return Change(tagsDiffer, Nothing);
    }
    if latest.status.ctype.Some? && latest.status.ctype.value == IMPORTED {
      var optionsDiffer := delta.DifferentAt(Options);
      return Change(tagsDiffer, if optionsDiffer then Refuse else Nothing);
    }
    return Change(tagsDiffer, PutOptions);
  }

  /** An export, or the tags and then whatever follows; a failure of the tags ends the update. */
  method Perform(action: Action, desired: Certificate, latest: Certificate, id: Identity,
                 passphrase: Result<string>, exported: Result<ExportResponse>, decrypt: Decrypt,
                 secrets: SecretStore, remoteTags: RemoteTags, remoteOptions: RemoteOptions)
    returns (updated: Certificate?, err: Option<Error>)
    requires NothingNilIsUsed(action, desired.Value(), latest.Value(), passphrase, exported)
    modifies secrets, remoteTags, remoteOptions
    ensures updated == null <==> err.Some?
    ensures updated != null ==>
      updated.Value() == UpdatedBy(action, desired.Value(), latest.Value(), id)
    ensures updated != null ==> Values(updated.conditions) == Values(desired.conditions)
    ensures Acted(action, desired.Value(), latest.Value(), latest.namespace,
                  passphrase, exported, decrypt, old(OutsideOf(secrets, remoteTags, remoteOptions)),
                  OutsideOf(secrets, remoteTags, remoteOptions), err.Some?)
    ensures err.Some? ==>
      err == Cause(action, latest.Value(), passphrase, exported, decrypt,
                   old(OutsideOf(secrets, remoteTags, remoteOptions)), OutsideOf(secrets, remoteTags, remoteOptions))
  {
    if action.ExportNow? {
      updated, err := ExportLatest(desired, latest, id, passphrase, exported, decrypt, secrets);
      return;
    }
    if action.tags {
      err := SyncTags(remoteTags, desired.spec.tags, latest.spec.tags);
      if err.Some? {
        return null, err;
      }
    }
    updated, err := FollowUpOn(action.followUp, desired, latest, id, remoteOptions);
  }

  method SdkUpdate(desired: Certificate, latest: Certificate, delta: ResourceDelta, id: Identity,
                   passphrase: Result<string>, exported: Result<ExportResponse>, decrypt: Decrypt,
                   secrets: SecretStore, remoteTags: RemoteTags, remoteOptions: RemoteOptions)
    returns (updated: Certificate?, err: Option<Error>)
    requires NothingNilIsUsed(ActionFor(delta.Paths(), latest.Value()), desired.Value(), latest.Value(),
                              passphrase, exported)
    modifies secrets, remoteTags, remoteOptions
    ensures updated == null <==> err.Some?
    ensures updated != null ==>
      updated.Value() == UpdatedBy(ActionFor(delta.Paths(), latest.Value()), desired.Value(), latest.Value(), id)
    ensures updated != null ==> Values(updated.conditions) == Values(desired.conditions)
    ensures Updates(ActionFor(delta.Paths(), latest.Value()), desired.Value(), latest.Value(), latest.namespace,
                    passphrase, exported, decrypt, old(OutsideOf(secrets, remoteTags, remoteOptions)),
                    OutsideOf(secrets, remoteTags, remoteOptions), err)
  {
    var action := NextAction(latest, delta);
    updated, err := Perform(action, desired, latest, id, passphrase, exported, decrypt,
                            secrets, remoteTags, remoteOptions);
  }

  /** The runtime is handed the terminal error exactly when the cause is terminal, a refused change included. */
  lemma FailureIsClassified(before: seq<ConditionValue>, cause: Error, after: seq<ConditionValue>, returned: Error)
    requires AtMostOnce(before) && Noted(before, Some(cause), after, returned)
    ensures HasTrue(after, Terminal) <==> IsTerminal(Some(cause))
    ensures returned == AckTerminal <==> IsTerminal(Some(cause)) || cause == AckTerminal
    ensures IsTerminal(Some(ONLY_TAGS))
  {
    OneOutcome(before, false, Some(cause));
  }

  /**
   What the runtime is handed: on failure it is the latest observation, issue data included, with
   the update's own error, `cause`, noted in its conditions.
   */
  method UpdateResource(desired: Certificate, latest: Certificate, delta: ResourceDelta, id: Identity,
                passphrase: Result<string>, exported: Result<ExportResponse>, decrypt: Decrypt,
                secrets: SecretStore, remoteTags: RemoteTags, remoteOptions: RemoteOptions)
    returns (result: Certificate, err: Option<Error>, ghost cause: Option<Error>)
    requires NothingNilIsUsed(ActionFor(delta.Paths(), latest.Value()), desired.Value(), latest.Value(),
                              passphrase, exported)
    modifies secrets, remoteTags, remoteOptions
    ensures err.Some? == cause.Some?
    ensures err.Some? ==> result.spec == latest.spec && result.status == WithDefaults(latest.status, id)
    ensures err.None? ==>
      var updated := UpdatedBy(ActionFor(delta.Paths(), latest.Value()), desired.Value(), latest.Value(), id);
      result.spec == updated.spec && result.status == WithDefaults(updated.status, id)
    ensures err.None? ==> Values(result.conditions) == Updated(old(Values(desired.conditions)), true, None)
    ensures err.Some? ==> Noted(old(Values(latest.conditions)), cause, Values(result.conditions), err.value)
    ensures Updates(ActionFor(delta.Paths(), latest.Value()), desired.Value(), latest.Value(), latest.namespace,
                    passphrase, exported, decrypt, old(OutsideOf(secrets, remoteTags, remoteOptions)),
                    OutsideOf(secrets, remoteTags, remoteOptions), cause)
  {
    var updated, updateErr := SdkUpdate(desired, latest, delta, id, passphrase, exported, decrypt,
                                        secrets, remoteTags, remoteOptions);
    cause := updateErr;
    if updateErr.Some? {
      var failed, returned := OnError(latest, updateErr.value, id);
      return failed, Some(returned), cause;
    }
    result := OnSuccess(updated, id);
    err := None;
  }

  // ---------- Main result ----------

  /** On the computed differences: what is due decides the action, and no difference is left without one. */
  lemma ActionOnDifferences(desired: Snapshot, latest: Snapshot)
    ensures var action := ActionFor(Differences(desired, latest), latest);
      && (action.ExportNow? <==> FirstIssue(desired, latest) || Renewed(desired, latest))
      && (action.Change? ==>
           && (action.tags <==> Denote(desired.spec.tags) != Denote(latest.spec.tags))
           && (action.followUp.Refuse? <==>
                latest.status.ctype == Some("IMPORTED") && desired.spec.options != latest.spec.options)
           && (action.followUp.PutOptions? <==>
                && latest.status.ctype != Some("IMPORTED")
                && !(ImmutableAgree(desired.spec, latest.spec) && desired.spec.options == latest.spec.options)))
      && (latest.status.ctype != Some("IMPORTED") ==>
           (action == Change(false, Nothing) <==> Differences(desired, latest) == {}))
  {
    AskedAt(desired, latest, IssuedAt);
    AskedAt(desired, latest, Serial);
    AskedAt(desired, latest, TagList);
    AskedAtOptions(desired, latest);
    AskedExceptTags(desired, latest);
    NoDifference(desired, latest);
  }

  /** The comparison reports the tags exactly when synchronising the same two lists would call ACM. */
  lemma TagDifferenceMeansACall(desired: Snapshot, latest: Snapshot)
    ensures TagList in Differences(desired, latest) <==>
      (ToAdd(Denote(desired.spec.tags), Denote(latest.spec.tags)) != map[]
       || ToDelete(Denote(desired.spec.tags), Denote(latest.spec.tags)) != map[])
  {
    NothingToDo(Denote(desired.spec.tags), Denote(latest.spec.tags));
    assert TagList in Differences(desired, latest) <==> Differs(TagList, desired, latest);
  }
}
