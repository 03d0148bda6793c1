# Verified model of the ACM certificate controller

The controller keeps a Kubernetes `Certificate` resource and an AWS Certificate Manager (ACM)
certificate in agreement: it observes the certificate, compares the observation with the desired
resource, acts on the differences, fills in defaults and records the outcome. This project models
those steps in Dafny and proves what they guarantee together, over every run, for every order in
which a Go map may be visited and for every remote call that may fail.

| file | models |
|---|---|
| `Types.dfy` | the resource (`Certificate`, a class with spec, status and conditions) and its fields |
| `Tags.dfy` | the tag lists and maps of `tags.go`, with default, system and AWS-managed tags |
| `SyncTags.dfy` | the two-call tag synchronisation of `sync.go` against a remote store |
| `Delta.dfy` | the comparison of desired and latest resource |
| `Conditions.dfy` | errors, their classification and the resource's conditions |
| `Describe.dfy` | observation: `sdkFind` and `ReadOne` |
| `LateInit.dfy` | late initialization |
| `Create.dfy` | requesting and importing a certificate |
| `Update.dfy` | exporting to a Secret and updating |
| `ExportProtocol.dfy` | the export protocol as an interleaving state machine |
| `Convergence.dfy` | repeated reconciliation with ACM quiet |
| `Lifecycle.dfy` | creation, late initialization and reconciliation together |
| `References.dfy` | the reference to a certificate authority |
| `ManagerFactory.dfy` | the locked cache of resource managers |

Operations that change things step by step are methods proved against specification functions; the
main results are lemmas about those functions. A remote call is a method that may fail, or its
answer is an input. The two-call synchronisation and the Secret writes may fail after having taken
effect in whole or, for tags, in part.

## Assumptions

- An issued certificate has an issue time, a serial number and a key algorithm. Before it is first
  issued it has neither issue time nor serial number, and it stays issued through renewals
  (`ExportProtocol.Describes`).
- Serial numbers are unique per authority, section 4.1.2.2 of RFC 5280 (`ExportProtocol.SerialsAreUnique`).
- What is recorded. In the protocol, which runs beside the user, the status a finished reconcile
  returns is recorded and the spec stays the user's (`ExportProtocol.Records`). In Convergence, where
  the user is idle, the whole returned resource is recorded, and nothing when the update was
  rejected (`Convergence.Reconciled`).
- Default and system tags (`EnsureTags`, `FilterSystemTags`) are taken to be settled before and
  after the reconciliation modelled in Convergence; they are treated in `Tags.EnsureThenFilter`.
- `exportTo` is set from the start and never changes (`ExportProtocol.Starts`, `ExportProtocol.Edits`).
- Nobody else writes the Secret's two entries.
- ACM's tag store is a map: adding overwrites by key, removing needs the stored value.
- A requested certificate has what the request named, spells the key algorithm its own way, and has
  defaults for what the request left open (`Create.Stores`). Asked for a certificate that is gone,
  ACM answers "ResourceNotFoundException" (`Create.Answers`).
- Updating options in ACM leaves a field that is not sent as it is, and is rejected by the client
  when there are no options to send.
- The tags ACM lists have keys and values, where reading them would otherwise dereference nil
  (`SyncTags.SyncTags`, `ExportProtocol.UpdateNeverMeetsNil`).
- The controller runtime's helpers are the obvious ones: a delta is asked about a path by
  component-wise prefix, exactly one of two pointers being nil is a nil difference, merging tags
  keeps the first argument's value, and a terminal error or a request to retry wraps the error it
  was made from. Setting the late-initialized or synced condition edits the first of its type or
  adds one.

What the runtime does with the resource `Update` hands back on an error is not in this repository.
The protocol therefore has it as a parameter, `recordsFailures`, and
`ExportProtocol.RecordIsNeverAheadOfTheExport` proves that the protocol is safe exactly when such a
resource is not recorded.

## Where the code and its wording differ

- The limit on domain validation options is announced for public certificates and applied to
  certificates that name an authority (pkg/resource/certificate/hooks.go:60-66). `Create.SdkCreate`
  follows the code.
- `ResolveReferences` is described as returning a copy; it writes the ARN into the object it was
  given, and does so even when validation has failed (pkg/resource/certificate/references.go:52-75).
- An update cannot bring options to agree that leave unset a field ACM has a value for: the
  comparison then reports a difference at every read. With no options set at all the update is even
  rejected every time (`Convergence.RejectedForEver`). `Convergence.TwoUpdatesSettle` gives the exact
  condition, and `Lifecycle.CreatedSettles` says which newly created certificates are affected.
- A key algorithm or logging preference set to the empty string is requested as unset and differs
  from then on. `Create.RequestDescribeRoundTrip` gives the exact condition.
- An `exportTo.key` of "tls.key" makes the private key cover the chain
  (`ExportProtocol.SecretHoldsWhatWasExported`).

## Model

| member | source | states |
|---|---|---|
| Types.Certificate.DeepCopy | apis/v1alpha1/zz_generated.deepcopy.go:311-327 | a copy is fresh, structurally equal and shares no condition with its source |
| Tags.ConvertToOrderedACKTags | pkg/resource/certificate/tags.go:36-55 | the map a list denotes and all its keys in order, nil keys skipped and nil values empty |
| Tags.FromACKTags | pkg/resource/certificate/tags.go:61-78 | the result lists the whole map, named keys first in first-occurrence order, then the rest in any order; the named keys are consumed from the argument |
| Tags.IgnoreSystemTags | pkg/resource/certificate/tags.go:85-92 | exactly the keys that are AWS-managed or system tags leave the map |
| Tags.SyncAWSTags | pkg/resource/certificate/tags.go:113-119 | the other map's AWS-managed entries overwrite this map's, nothing else changes |
| Tags.EnsureTags | pkg/resource/certificate/manager.go:336-342 | the spec's tags become a listing of default and own tags, own values winning, own order first |
| Tags.FilterSystemTags | pkg/resource/certificate/manager.go:364-374 | the spec's tags become a listing of the non-system ones; a missing resource is left alone |
| Tags.MirrorAWSTags | pkg/resource/certificate/manager.go:387-399 | the desired tags become a listing of themselves with the latest AWS-managed entries; nothing else of the resource changes |
| Tags.LastTagWins | pkg/resource/certificate/tags.go:43-52 | the last tag carrying a key decides what the list denotes for it, a missing value meaning the empty string |
| Tags.FirstsKeepTheOrder | pkg/resource/certificate/tags.go:64-71 | listed keys appear by increasing position of their first occurrence |
| Tags.ListingKeepsTheMap | pkg/resource/certificate/tags.go:61-78 | every listing, in whatever visiting order, denotes the map it lists, with distinct keys and non-nil keys and values |
| Tags.RoundTripIsNormal | pkg/resource/certificate/tags.go:36-78 | list to map to list has exactly one outcome, the normal form, whatever the visiting order |
| Tags.ListingKeepsTheOrder | pkg/resource/certificate/tags.go:61-78 | whatever map is listed again, the tags the user had come first and in the order of their first occurrence in the user's list |
| Tags.EnsuredExactly | pkg/resource/certificate/manager.go:336-342 | after adding defaults each key has the user's value if the user set it and the default otherwise, and there is no other key |
| Tags.FilteredExactly | pkg/resource/certificate/tags.go:85-92 | after filtering no key starting with "aws:" and no system tag is left, and every other tag is unchanged |
| Tags.MirroredExactly | pkg/resource/certificate/tags.go:113-119 | after mirroring each observed key starting with "aws:" has the observed value and every other key the user's |
| Tags.NormalIsNormal | pkg/resource/certificate/tags.go:36-78 | the normal form means the same as the list, is well-formed and is its own normal form |
| Tags.EnsureThenFilter | pkg/resource/certificate/manager.go:336-374 | adding defaults and filtering gives back the user's normalised tags less the system ones, in order, if and only if each default tag is a system tag or the user's own |
| SyncTags.SyncTags | pkg/tags/sync.go:39-105 | success reaches the planned store; at every moment in between each tag is as before or as planned, common tags are untouched and nothing is written before all unwanted tags are gone; ACM is called if and only if the lists denote different maps, and the result is the error of the call that failed, if one did |
| SyncTags.PlanSync | pkg/tags/sync.go:60-73 | the tags to write are those missing or different, the tags to remove those not desired, with their stored values |
| SyncTags.AddTags | pkg/tags/sync.go:108-136 | success overwrites by key; failure leaves each tag old or new |
| SyncTags.RemoveTags | pkg/tags/sync.go:139-166 | success removes the tags whose supplied value matches; failure leaves each tag old or removed |
| SyncTags.NothingToDo | pkg/tags/sync.go:63-73 | nothing is written or removed if and only if both lists denote the same map |
| SyncTags.SyncReachesDesired | pkg/tags/sync.go:51-102 | with any listing, stale or not, the store ends as the desired map if and only if the listing is right about the tags the plan leaves alone |
| SyncTags.RetryReachesDesired | pkg/tags/sync.go:75-102 | after a failure at any point a retry against a fresh listing reaches the desired map |
| SyncTags.NoTagIsLostInBetween | pkg/tags/sync.go:75-102 | with an exact listing no tag that both sides have alike is ever absent or changed |
| SyncTags.FailedAttemptsLoseNoTag | pkg/tags/sync.go:75-102 | any number of failed attempts leaves each tag original or desired, and the next success reaches the desired map |
| SyncTags.MirroringOnlySparesAWSTags | pkg/resource/certificate/manager.go:387-399 | mirroring takes the remote AWS-managed tags out of both parts of the plan and leaves the plan for every other key as it was |
| SyncTags.MirroredSyncKeepsAWSTags | pkg/resource/certificate/manager.go:106-107 | after a read has mirrored AWS tags, synchronising never removes or rewrites a remote AWS-managed tag, at any moment |
| Delta.UnderAsked | pkg/resource/certificate/sdk.go:545-592 | which recorded paths answer a question about a path: only the path itself for issue time, serial and tags, the two inner paths too for options |
| Delta.AskedAt | pkg/resource/certificate/sdk.go:545-579 | a question about issue time, serial or tags is answered yes if and only if that field differs |
| Delta.CompareCertificateIssuedAt | pkg/resource/certificate/hooks.go:288-307 | adds exactly the first-issue and the renewal difference that apply |
| Delta.CompareKeyAlgorithm | pkg/resource/certificate/hooks.go:274-286 | adds a difference if and only if both sides name algorithms that differ after normalising |
| Delta.NewResourceDelta | pkg/resource/certificate/delta.go:34-96 | the recorded paths are exactly the paths that differ; one missing resource is a difference at the root |
| Delta.NoDifference | pkg/resource/certificate/delta.go:44-93 | the delta is empty if and only if nothing is to export, immutable fields and options are equal and tags are equal as maps |
| Delta.NoDifferenceExactly | pkg/resource/certificate/delta.go:44-93 | field by field: the delta is empty if and only if no first issue or renewal is to be exported, the algorithms, if both set, differ at most in dashes, and ARN, authority, reference, domain name, options and tag maps agree |
| Delta.SameSpelling | pkg/resource/certificate/hooks.go:270-272 | two algorithms normalise alike if and only if they differ only in dashes against underscores |
| Delta.AskedAtOptions | pkg/resource/certificate/sdk.go:592 | the options question is answered yes if and only if the options differ in any way |
| Delta.AskedExceptTags | pkg/resource/certificate/sdk.go:588 | only tags differ if and only if export, immutable fields and options all agree |
| Conditions.UpdateConditions | pkg/resource/certificate/sdk.go:705-783 | the returned copy carries the edited conditions; nothing is returned if and only if no managed condition results; only a success makes a resource synced |
| Conditions.OnError | pkg/resource/certificate/manager.go:428-448 | the resource is handed back with its conditions; the terminal error replaces the error if and only if a terminal condition is true |
| Conditions.OnSuccess | pkg/resource/certificate/manager.go:452-463 | the conditions record a success and spec and status are kept |
| Conditions.OneOutcome | pkg/resource/certificate/sdk.go:728-778 | one outcome sets the terminal condition if and only if it is terminal, and the recoverable one if and only if it is a non-terminal error, terminal outcomes leaving it alone; the synced condition is added, true, by a success that finds none, and otherwise kept |
| Conditions.RequeueIsRetried | pkg/resource/certificate/sdk.go:845-868 | an error wrapped to ask for a retry is terminal if and only if it was and is not a missing or unsupported Secret |
| Conditions.ConditionsTellTheHistory | pkg/resource/certificate/sdk.go:705-783 | over any history: each managed type at most once, none removed or reordered, terminal if and only if the last outcome was, recoverable if and only if the latest non-terminal outcome was an error |
| Conditions.SyncedTellsASuccess | pkg/resource/certificate/sdk.go:772-778 | over any history: synced if and only if it was so at the start or, not reported then, some outcome was a success |
| Conditions.ConditionsShowTheError | pkg/resource/certificate/sdk.go:728-771 | the two failure conditions value by value: set with the message of ACM's error, or of the error itself if there is none or it is marked terminal, otherwise cleared without a message |
| Conditions.TerminalExactly | pkg/resource/certificate/sdk.go:788-808 | an error is terminal if and only if it is one of the two Secret errors, is marked as terminal anywhere in its chain, or has one of six ACM codes at its root |
| Conditions.DefaultsFillOnlyGaps | pkg/resource/certificate/sdk.go:683-701 | account, region and partition are filled in where missing and nothing else of the status changes |
| Conditions.OnErrorIsExact | pkg/resource/certificate/manager.go:435-447 | after any history the terminal error is returned if and only if the error is classified terminal |
| Describe.SdkFind | pkg/resource/certificate/sdk.go:57-370 | the error, if any, "not found" if and only if there is no ARN or ACM or a call says so; otherwise a fresh observation that takes every response-backed field from the response |
| Describe.NotFoundExactly | pkg/resource/certificate/sdk.go:68-89 | a certificate counts as missing if and only if no ARN is known, the describe call's root error is "ResourceNotFoundException", or a call reports not found itself; any other failure is reported as it is |
| Describe.ReadOne | pkg/resource/certificate/manager.go:97-115 | a successful read returns the observation and mirrors AWS tags into the resource read with; a failed one leaves its spec alone and hands it back with the failure in its conditions |
| Describe.ObservationIsIdempotent | pkg/resource/certificate/sdk.go:91-369 | observing the observation with ACM unchanged gives it back and asks for the same ARN |
| Describe.ObservationForgets | pkg/resource/certificate/sdk.go:89-369 | nothing stale survives: resources are observed alike if and only if they agree on the fields a response does not carry, on the ARN unless the response has one, and on account, region and partition after defaulting |
| Describe.ObservationIsFaithful | pkg/resource/certificate/sdk.go:92-366 | nothing of a response is lost: responses are observed alike if and only if they differ at most in a redirect or an empty e-mail list of an initial validation and yield the same ARN |
| Describe.ResponseCanBeReadBack | pkg/resource/certificate/sdk.go:91-366 | every field of a response is shown where it belongs: a field-by-field inverse gives the response back from the observation, up to redirects and empty e-mail lists of initial validations |
| Describe.ObservationKeepsTheRest | pkg/resource/certificate/sdk.go:91-369 | the listed tags are shown, the ARN is the response's if it has one, and the fields no response carries stay the user's |
| Describe.ValidationsAreAligned | pkg/resource/certificate/sdk.go:92-174 | status validations and spec validation options have the same length and agree element by element |
| LateInit.LateInitialize | pkg/resource/certificate/manager.go:211-258 | only unset fields are filled from the observation, AWS tags are mirrored, the status and the resource passed in are kept, completion is reported exactly, and the conditions are those of the outcome |
| LateInit.LateInitializeFromReadOneOutput | pkg/resource/certificate/manager.go:285-306 | key algorithm, options, export preference and alternative names are filled in where unset |
| LateInit.IncompleteLateInitialization | pkg/resource/certificate/manager.go:262-281 | incomplete if and only if a required field is unset |
| LateInit.LateInitializationRefines | pkg/resource/certificate/manager.go:232-306 | no set field is overwritten and each unset one gets the observed value, inside the options too; no tag is lost, and a tag is overwritten if and only if its key starts with "aws:" and it is observed with another value |
| LateInit.LateInitializationIsIdempotent | pkg/resource/certificate/manager.go:232-306 | a second pass over the same response gives the same resource, tag order included, whatever the visiting orders |
| LateInit.LateInitializationNeverAddsADifference | pkg/resource/certificate/manager.go:232-306 | the differences from the observation copied from, tags included, can only become fewer |
| LateInit.LateInitializationSettles | pkg/resource/certificate/manager.go:294-301 | options agree afterwards if and only if they were unset, or logging agreed and export was unset or agreed |
| LateInit.CompleteWhenSetOrObserved | pkg/resource/certificate/manager.go:262-306 | complete if and only if each of the three required fields was set or observed |
| LateInit.SetLateConditions | pkg/resource/certificate/manager.go:225-256 | the late-initialized condition gets the outcome and its message; unless complete, the synced condition becomes false |
| LateInit.LateConditionsTellTheOutcome | pkg/resource/certificate/manager.go:225-256 | late-initialized is true if and only if it was complete, synced only if it was before and it was complete; other conditions keep their truth |
| Create.NewCreateRequestPayload | pkg/resource/certificate/sdk.go:469-530 | the request carries the spec's fields, alternative names, validation options and tags among them, unset ones absent |
| Create.RequestCarriesTheSpec | pkg/resource/certificate/sdk.go:434-530 | the request field by field: each from its own field of the spec, unset strings empty, validation by "DNS", and export "ENABLED" if and only if forced or chosen |
| Create.MaybeImportCertificate | pkg/resource/certificate/hooks.go:76-111 | the exact error, a failed Secret lookup wrapped as a request to retry, or a fresh created resource with the caller's spec; the caller's resource is not modified |
| Create.ImportCarriesTheSecrets | pkg/resource/certificate/sdk.go:812-874 | the import request has key, certificate and chain each from its own Secret, the named ARN and the tags; the first Secret that cannot be read, in that order, asks for a retry |
| Create.CreatedHasTheARN | pkg/resource/certificate/sdk.go:451-464 | a created resource has the ARN it was answered with, or keeps its own, and only metadata changes |
| Create.CreationSucceedsExactly | pkg/resource/certificate/sdk.go:408-450 | a creation succeeds if and only if it is an acceptable import with readable Secrets and a private key, or an acceptable request, and ACM agrees; an import request is sent if and only if only ACM can still fail it |
| Create.RefusalsAreTerminal | pkg/resource/certificate/hooks.go:90-111 | refusals of a spec and a missing private key are terminal, a missing Secret is not |
| Create.SdkCreate | pkg/resource/certificate/sdk.go:399-465 | the exact error; an import never sends a request; a request is sent if and only if the resource is acceptable, with the alternative names, validation options, tags and manager of the spec, DNS validation and export enabled for public certificates to export |
| Create.RequestDescribeRoundTrip | pkg/resource/certificate/sdk.go:434-530 | request, describe and late initialization leave no spec difference if and only if options are unset or set logging without contradicting the forced export, and the key algorithm is not the empty string |
| Create.CreatedAsAskedFor | pkg/resource/certificate/sdk.go:434-530 | the certificate observed after a creation is for the domain, authority and manager of the spec, covers every alternative name asked for, is validated by DNS if it is public, and can be exported if it is public and to be exported |
| Create.ImportStaysAcceptable | pkg/resource/certificate/hooks.go:76-106 | along any run of creations, late initializations, deletions and edits a valid import stays acceptable |
| Create.ImportIsNeverRefused | pkg/resource/certificate/hooks.go:83-93 | no run ever refuses an imported certificate for request-only fields if and only if it started as a valid import |
| Create.MissingExactly | pkg/resource/certificate/sdk.go:68-89 | a read finds an imported certificate missing if and only if no ARN is known or it is gone from ACM |
| Create.DeletionLeadsToRecreation | pkg/resource/certificate/hooks.go:78-106 | at any time of any run of a valid import, after a deletion every read reports not found and the import can be made again with the same spec, after which it is found |
| Update.ExportCertificate | pkg/resource/certificate/hooks.go:169-228 | the exact error: that of the first of passphrase, export, chain write, decryption and key write to fail; success writes chain, leaf certificate first, and decrypted key of one response; failure writes nothing, the chain only, or both with the success lost |
| Update.ExportIsReadBack | pkg/resource/certificate/hooks.go:195-223 | both parts can be read back if and only if the chain has an entry of its own, which then begins with the certificate, and no other entry changes |
| Update.FinishedExport | pkg/resource/certificate/hooks.go:195-223 | a finished export entry by entry: the decrypted key under "tls.key" and certificate plus chain under the chain's key, in the named namespace or else the resource's own, and no other entry changed |
| Update.FailedExport | pkg/resource/certificate/hooks.go:169-228 | a failed export has changed no other entry, nothing at all before ACM answered, and the key only together with the chain |
| Update.CauseOfAFailedExport | pkg/resource/certificate/hooks.go:169-228 | the error of a failed export is that of the first step that failed |
| Update.NextAction | pkg/resource/certificate/sdk.go:545-594 | the questions asked about the differences lead to the specified action |
| Update.SdkUpdate | pkg/resource/certificate/sdk.go:534-619 | the action for the differences and its exact effect on Secrets, tags, options and the returned resource, each touched by its own action only; an error if and only if the change is refused or a call failed, tags before options, and then that call's error |
| Update.UpdatedCarriesTheIssue | pkg/resource/certificate/sdk.go:545-618 | the returned resource has the desired spec and, unless only tags changed, the observed issue time, status and serial, its other status fields being the recorded ones |
| Update.CauseOfAFailedChange | pkg/resource/certificate/sdk.go:579-611 | the error of a failed change is that of the tags if they failed, then the refusal or that of the options call |
| Update.UpdateResource | pkg/resource/certificate/manager.go:147-167 | the same effect outside the resource; on failure the latest observation is handed back, issue data included, with the update's own error noted in its conditions; on success the updated resource with a success in them |
| Update.FailureIsClassified | pkg/resource/certificate/manager.go:160-165 | after a failed update the terminal error is handed back if and only if its cause is terminal, a refused change included |
| Update.ActionOnDifferences | pkg/resource/certificate/sdk.go:545-606 | what is due decides the action: export first, then tags and options, and only an imported certificate can have a difference without one |
| Update.TagDifferenceMeansACall | pkg/resource/certificate/delta.go:89-93 | the comparison reports tags if and only if synchronising the same lists would call ACM |
| ExportProtocol.ExportIsDue | pkg/resource/certificate/hooks.go:293-306 | the comparison asks for an export if and only if the observed generation is ahead of the recorded one |
| ExportProtocol.StepKeepsInvariant | pkg/resource/certificate/hooks.go:169-228 | every step of ACM, user and controller, and every failure, keeps the protocol's invariant |
| ExportProtocol.RunKeepsInvariant | pkg/resource/certificate/sdk.go:545-577 | the invariant holds in every state of every run |
| ExportProtocol.RecordIsNeverAheadOfTheExport | pkg/resource/certificate/sdk.go:545-577 | in every reachable state recorded <= key <= chain <= ACM generation, if and only if a failed update's resource is not recorded |
| ExportProtocol.RecordSaysIssued | pkg/resource/certificate/sdk.go:555-576 | in every reachable state a record of an issued certificate has the status issued, its serial number and an issue time, and any other record has neither serial nor issue time |
| ExportProtocol.SecretChainIsLeafFirst | pkg/resource/certificate/hooks.go:195-223 | in every reachable state, unless the chain is stored as "tls.key", the Secret's chain begins with the exported certificate followed by its chain, and "tls.key" holds its key |
| ExportProtocol.RecordedFailureLosesTheIssue | pkg/resource/certificate/manager.go:160-165 | a run in which recording a failed update's resource puts the record ahead of the export |
| ExportProtocol.SecretHoldsWhatWasExported | pkg/resource/certificate/hooks.go:195-223 | in every reachable state the Secret holds the chain and key of the exported generations if and only if the chain is not stored as "tls.key" |
| ExportProtocol.NothingGoesBack | pkg/resource/certificate/hooks.go:195-223 | along every run neither chain, key nor record returns to an older generation |
| ExportProtocol.NoRenewalIsLost | pkg/resource/certificate/hooks.go:288-307 | at any time of any run a read leads to an export if and only if the record is behind ACM, in particular whenever chain or key is not current |
| ExportProtocol.OneExportCatchesUp | pkg/resource/certificate/sdk.go:545-577 | one uninterrupted export after any history makes record, chain, key and ACM generation equal, from one response, records it as issued, and leaves nothing to export; the chain can be read back if and only if it has an entry of its own or equals the key |
| ExportProtocol.UpdateNeverMeetsNil | pkg/resource/certificate/hooks.go:195-215 | in every reachable state with an update ahead every pointer it dereferences is there, the key algorithm for decrypting included |
| ExportProtocol.ExportRefinesTheSteps | pkg/resource/certificate/hooks.go:169-228 | what an export can leave in the Secret is what the protocol's steps leave: success is the last step, a failure stops after any of them, and each of these is possible |
| Convergence.OneStep | pkg/resource/certificate/sdk.go:545-618 | one reconcile works off a due export, clearing issue time and serial together, and otherwise the tags and, if they can be, the options; the user's options and the tags to end up with are kept |
| Convergence.ReconcileIsTheUpdate | pkg/resource/certificate/sdk.go:579-618 | a reconcile of tags or options is what the update operation's contract leaves when no call fails: same tags, options and resource, and an error if and only if rejected |
| Convergence.RunsExist | pkg/resource/certificate/sdk.go:545-618 | from every site, whatever its options, there is a run of any length |
| Convergence.RejectedForEver | pkg/resource/certificate/sdk.go:596-608 | the update is rejected, once the export is done and then at every reconcile, if and only if ACM has options and the user none |
| Convergence.UpdatesMakeProgress | pkg/resource/certificate/sdk.go:545-618 | the number of updates remaining drops by one with each update until it is none |
| Convergence.TwoUpdatesSettle | pkg/resource/certificate/sdk.go:545-618 | over all runs: from the second reconcile on no read finds a difference if and only if the options can be brought to agree, and otherwise every read of every run finds one |
| Convergence.SettledMeansApplied | pkg/resource/certificate/sdk.go:579-608 | from the second reconcile on ACM has exactly the tags the user wanted at the start with the AWS-managed ones, and exactly the options the user wanted at the start if and only if they can be brought to agree |
| Lifecycle.CreatedSettles | pkg/resource/certificate/sdk.go:434-530 | a requested and late-initialized certificate settles if and only if its options are unset or choose logging without an empty string, and needs no update but its export if and only if they are also requestable |
| Lifecycle.EmptyKeyAlgorithmDiffers | pkg/resource/certificate/hooks.go:274-286 | the first read after creation finds the key algorithm different if and only if it was set to the empty string |
| References.ClearResolvedReferences | pkg/resource/certificate/references.go:42-50 | a copy without the ARN if a reference is set |
| References.GetReferencedResourceState | pkg/resource/certificate/references.go:128-176 | succeeds if and only if the authority can be read, is nowhere terminal, is synced and has an ARN, for condition lists of any length; otherwise the first of these reasons is reported |
| References.ResolveCertificateAuthorityARN | pkg/resource/certificate/references.go:91-122 | installs the authority's ARN if and only if the reference can be resolved |
| References.ResolveReferences | pkg/resource/certificate/references.go:59-75 | no error if and only if validation passes and any reference resolves; a failure to resolve is reported before one to validate; the ARN is installed even when validation failed |
| References.ResolvesExactly | pkg/resource/certificate/references.go:91-175 | a reference resolves if and only if its name is not empty, the namespace is allowed, and the authority there can be read, has no true terminal and some true synced condition and an ARN, which is then installed |
| References.FirstReasonIsReported | pkg/resource/certificate/references.go:143-175 | an authority that is terminal is reported as such before one that is not synced |
| References.ResolveThenClear | pkg/resource/certificate/references.go:42-85 | clearing after resolving gives back the original spec if and only if validation passes |
| References.InstalledARNIsReady | pkg/resource/certificate/references.go:143-175 | an installed ARN belongs to the named authority, which was synced and not terminal |
| ManagerFactory.ResourceManagerFactory.ManagerFor | pkg/resource/certificate/manager_factory.go:48-79 | with any calls in between, the manager returned was built for the caller and is cached under its key, and no key is dropped |
| ManagerFactory.EveryCallerGetsItsOwnManager | pkg/resource/certificate/manager_factory.go:61-78 | in every interleaving every call gets a manager built for it if and only if the key tells the callers apart |
| ManagerFactory.KeyIsInjective | pkg/resource/certificate/manager_factory.go:61 | accounts and regions without a slash are told apart, whatever the role ARNs contain |
| ManagerFactory.RealCallersGetTheirOwnManager | pkg/resource/certificate/manager_factory.go:61-78 | callers as AWS has them are always served by their own manager, and no cached key is ever dropped |

## Left out

- ExportProtocol.RunKeepsInvariant: the effects of tag and option updates on ACM are not tied to the controller's step in the protocol; they are covered by the step in which anything else changes in ACM, and tied to the update in Convergence.
- References.ResolveCertificateAuthorityARN: the runtime's decision about references into other namespaces, and the condition it may set, is an input.
- References.ResolveReferences: the runtime's decision about references into other namespaces, and the condition it may set, is an input.
- ManagerFactory.ResourceManagerFactory.ManagerFor: a manager is reduced to whom it was built for; that only one manager is ever built per key is not claimed, since the code does not look again under the write lock.
- LateInit.LateInitialize: the reason texts and transition times of conditions, and the delay of five seconds before a retry, are not modelled.
- Nested pointers and slices of a spec or status are values; the code replaces them as a whole or edits a private copy, so sharing between two resources is not visible. A nil and an empty list of conditions or of tags are the same.
- The mapping of tag listings from the ACM client's type to the resource's, an element-wise copy.
- Deleting a certificate, a single remote call.
- `ARNFromName`, `IsSynced`, descriptors, identifiers, registration and `main.go`: wiring.
- Decryption, PEM and PKCS #8 handling and random passphrases: an arbitrary function that may fail and an arbitrary input.
- The controller runtime's scheduling, requeue times, finalizers and conflict handling.
- Exporting an imported certificate, whose issue time may stay unset.
