/**
 The export protocol: the controller's reconcile steps interleaved with ACM issuing and renewing
 the certificate, with the user editing the resource and with failures anywhere.

 Issued certificates are numbered by generation, 0 for none; renewals may land between any two
 controller steps. The recorded resource is what the cluster keeps from one reconcile to the next.
 */
module ExportProtocol {
  import opened Types
  import opened Tags
  import opened TagSync = SyncTags
  import opened Conditions
  import opened Describe
  import opened Delta
  import opened Update

  /** What ACM hands out for each generation. */
  datatype Authority = Authority(
    serialOf: nat -> string,
    responseOf: nat -> ExportResponse,
    plainKeyOf: nat -> string)

  /** Serial numbers are unique per authority (section 4.1.2.2 of RFC 5280). */
  ghost predicate SerialsAreUnique(a: Authority) {
    forall g: nat, h: nat :: a.serialOf(g) == a.serialOf(h) ==> g == h
  }

  /** What does not change; `recordsFailures` is whether the resource handed back on an error is recorded. */
  datatype Setting = Setting(
    authority: Authority,
    namespace: string,
    exportTo: SecretKeyReference,
    id: Identity,
    recordsFailures: bool)

  datatype Phase =
    | Idle
    | Observed(desired: Snapshot, latest: Snapshot, seen: nat)
    | Answered(desired: Snapshot, latest: Snapshot, seen: nat, answer: nat)
    | ChainWritten(desired: Snapshot, latest: Snapshot, seen: nat, answer: nat)
    | Finished(result: Snapshot, resultGen: nat)

  datatype World = World(
    gen: nat,
    detail: CertificateDetail,
    tags: seq<Tag>,
    data: map<SecretKeyReference, string>,
    chainGen: nat,
    keyGen: nat,
    recorded: Snapshot,
    recordedGen: nat,
    phase: Phase)

  // ---------- Assumptions on ACM ----------

  /** Issue data is there exactly from the first issue on, and a renewed certificate stays issued. */
  ghost predicate Describes(a: Authority, d: CertificateDetail, gen: nat) {
    if gen == 0 then d.status != ISSUED && d.issuedAt.None? && d.serial.None?
    else d.status == ISSUED && d.issuedAt.Some? && d.serial == Some(a.serialOf(gen)) && d.keyAlgorithm != ""
  }

  // ---------- Steps ----------

  /** ACM issues the certificate or renews it. */
  ghost predicate Issues(s: Setting, w: World, v: World) {
    && v == w.(gen := w.gen + 1, detail := v.detail)
    && Describes(s.authority, v.detail, v.gen)
  }

  /** Anything else about the certificate or its tags changes in ACM. */
  ghost predicate Drifts(s: Setting, w: World, v: World) {
    && v == w.(detail := v.detail, tags := v.tags)
    && Describes(s.authority, v.detail, v.gen)
  }

  /** The user edits the spec; where to export to is immutable. */
  ghost predicate Edits(w: World, v: World) {
    && v == w.(recorded := Snapshot(v.recorded.spec, w.recorded.status))
    && v.recorded.spec.exportTo == w.recorded.spec.exportTo
  }

  /** Reads the certificate; the observed AWS tags are mirrored into the desired resource. */
  ghost predicate Reads(s: Setting, w: World, v: World) {
    && w.phase.Idle? && w.recorded.status.HasARN()
    && v.phase.Observed?
    && v == w.(phase := Observed(v.phase.desired, Observe(w.recorded, w.detail, w.tags, s.id), w.gen))
    && v.phase.desired == w.recorded.(spec := w.recorded.spec.(tags := v.phase.desired.spec.tags))
    && Lists(v.phase.desired.spec.tags, WithAWSOf(Denote(w.recorded.spec.tags), Denote(w.tags)),
             KeyOrder(w.recorded.spec.tags))
  }

  /** No difference: the observation is the result. */
  ghost predicate FindsNothing(w: World, v: World) {
    && w.phase.Observed?
    && Differences(w.phase.desired, w.phase.latest) == {}
    && v == w.(phase := Finished(w.phase.latest, w.phase.seen))
  }

  function ActionOf(p: Phase): Action
    requires p.Observed?
  {
    ActionFor(Differences(p.desired, p.latest), p.latest)
  }

  /** A difference that is no export is worked off. */
  ghost predicate Changes(s: Setting, w: World, v: World) {
    && w.phase.Observed?
    && Differences(w.phase.desired, w.phase.latest) != {}
    && ActionOf(w.phase).Change? && !ActionOf(w.phase).followUp.Refuse?
    && v == w.(phase := Finished(
         UpdatedBy(ActionOf(w.phase), w.phase.desired, w.phase.latest, s.id),
         if ActionOf(w.phase).followUp.Nothing? then w.recordedGen else w.phase.seen))
  }

  function Called(w: World): World
    requires w.phase.Observed?
  {
    w.(phase := Answered(w.phase.desired, w.phase.latest, w.phase.seen, w.gen))
  }

  function WithChain(s: Setting, w: World): World
    requires w.phase.Answered?
  {
    w.(data := w.data[ChainTarget(s.namespace, s.exportTo) := FullChain(s.authority.responseOf(w.phase.answer))],
       chainGen := w.phase.answer,
       phase := ChainWritten(w.phase.desired, w.phase.latest, w.phase.seen, w.phase.answer))
  }

  function WithKey(s: Setting, w: World): World
    requires w.phase.ChainWritten?
  {
    w.(data := w.data[KeyTarget(s.namespace, s.exportTo) := s.authority.plainKeyOf(w.phase.answer)],
       keyGen := w.phase.answer,
       phase := Finished(UpdatedBy(ExportNow, w.phase.desired, w.phase.latest, s.id), w.phase.seen))
  }

  /** ACM answers the export call with the certificate it has at that moment. */
  ghost predicate CallsExport(w: World, v: World) {
    && w.phase.Observed?
    && ActionOf(w.phase).ExportNow?
    && v == Called(w)
  }

  ghost predicate WritesChain(s: Setting, w: World, v: World) {
    w.phase.Answered? && v == WithChain(s, w)
  }

  ghost predicate WritesKey(s: Setting, w: World, v: World) {
    w.phase.ChainWritten? && v == WithKey(s, w)
  }

  /** The status of the result is recorded; the spec stays what the user has made it by now. */
  ghost predicate Records(w: World, v: World) {
    && w.phase.Finished?
    && v == w.(recorded := Snapshot(w.recorded.spec, w.phase.result.status),
               recordedGen := w.phase.resultGen, phase := Idle)
  }

  /** A failure of any call or write, also one that took effect, or a crash: nothing is recorded. */
  ghost predicate GivesUp(w: World, v: World) {
    v == w.(phase := Idle)
  }

  /** A failed update whose returned resource, the latest observation, is recorded all the same. */
  ghost predicate RecordsFailure(s: Setting, w: World, v: World) {
    && s.recordsFailures
    && (w.phase.Observed? || w.phase.Answered? || w.phase.ChainWritten?)
    && v == w.(recorded := Snapshot(w.recorded.spec, WithDefaults(w.phase.latest.status, s.id)),
               recordedGen := w.phase.seen, phase := Idle)
  }

  ghost predicate Step(s: Setting, w: World, v: World) {
    || Issues(s, w, v) || Drifts(s, w, v) || Edits(w, v)
    || Reads(s, w, v) || FindsNothing(w, v) || Changes(s, w, v)
    || CallsExport(w, v) || WritesChain(s, w, v) || WritesKey(s, w, v)
    || Records(w, v) || GivesUp(w, v) || RecordsFailure(s, w, v)
  }

  /** Nothing is recorded or exported yet; the certificate may already be issued. */
  ghost predicate Starts(s: Setting, w: World) {
    && w.recorded.spec.exportTo == Some(s.exportTo)
    && w.recorded.status.issuedAt.None? && w.recorded.status.serial.None?
    && w.recordedGen == w.chainGen == w.keyGen == 0
    && w.phase.Idle?
    && Describes(s.authority, w.detail, w.gen)
  }

  ghost predicate Run(s: Setting, worlds: seq<World>) {
    && |worlds| > 0
    && Starts(s, worlds[0])
    && forall i :: 0 <= i < |worlds| - 1 ==> Step(s, worlds[i], worlds[i + 1])
  }

  // ---------- The invariant ----------

  /** The status carries the issue data of generation `gen`. */
  ghost predicate Marks(a: Authority, status: CertificateStatus, gen: nat) {
    if gen == 0 then status.issuedAt.None? && status.serial.None?
    else status.issuedAt.Some? && status.serial == Some(a.serialOf(gen)) && status.status == Some(ISSUED)
  }

  /** A recorded renewal is never ahead of what was exported, nor the key ahead of the chain, nor either of ACM. */
  ghost predicate Ordered(w: World) {
    w.recordedGen <= w.keyGen <= w.chainGen <= w.gen
  }

  /** The Secret holds the parts of the generations it is said to hold. */
  ghost predicate Holds(s: Setting, w: World) {
    && (w.chainGen > 0 ==>
         && ChainTarget(s.namespace, s.exportTo) in w.data
         && w.data[ChainTarget(s.namespace, s.exportTo)] == FullChain(s.authority.responseOf(w.chainGen)))
    && (w.keyGen > 0 ==>
         && KeyTarget(s.namespace, s.exportTo) in w.data
         && w.data[KeyTarget(s.namespace, s.exportTo)] == s.authority.plainKeyOf(w.keyGen))
  }

  /** What an observation in flight says. */
  ghost predicate Consistent(s: Setting, w: World, desired: Snapshot, latest: Snapshot, seen: nat) {
    && w.recordedGen <= seen <= w.gen
    && desired.spec.exportTo == Some(s.exportTo)
    && Marks(s.authority, desired.status, w.recordedGen)
    && Marks(s.authority, latest.status, seen)
    && (latest.status.status == Some(ISSUED) <==> seen > 0)
  }

  ghost predicate InPhase(s: Setting, w: World) {
    match w.phase
    case Idle => true
    case Observed(desired, latest, seen) => Consistent(s, w, desired, latest, seen) && w.chainGen <= seen
    case Answered(desired, latest, seen, answer) =>
      Consistent(s, w, desired, latest, seen) && w.chainGen <= seen <= answer <= w.gen && answer > 0
    case ChainWritten(desired, latest, seen, answer) =>
      Consistent(s, w, desired, latest, seen) && w.keyGen <= seen <= answer == w.chainGen && answer > 0
    case Finished(result, resultGen) =>
      Marks(s.authority, result.status, resultGen) && w.recordedGen <= resultGen <= w.keyGen
  }

  ghost predicate Invariant(s: Setting, w: World) {
    && w.recorded.spec.exportTo == Some(s.exportTo)
    && Describes(s.authority, w.detail, w.gen)
    && Marks(s.authority, w.recorded.status, w.recordedGen)
    && Ordered(w)
    && (s.exportTo.key != TLS_KEY ==> Holds(s, w))
    && InPhase(s, w)
  }

  /** Whether an export is due is exactly whether ACM has been seen ahead of the record. */
  lemma ExportIsDue(s: Setting, w: World, desired: Snapshot, latest: Snapshot, seen: nat)
    requires SerialsAreUnique(s.authority)
    requires Consistent(s, w, desired, latest, seen)
    ensures FirstIssue(desired, latest) || Renewed(desired, latest) <==> w.recordedGen < seen
    ensures ActionFor(Differences(desired, latest), latest).ExportNow? <==> w.recordedGen < seen
    ensures Differences(desired, latest) == {} ==> w.recordedGen == seen
  {
    ActionOnDifferences(desired, latest);
    NoDifference(desired, latest);
  }

  lemma ReadingIsConsistent(s: Setting, w: World, v: World)
    requires Invariant(s, w) && Reads(s, w, v)
    ensures Consistent(s, v, v.phase.desired, v.phase.latest, v.phase.seen)
  {
  }

  lemma EnvironmentKeepsInvariant(s: Setting, w: World, v: World)
    requires Invariant(s, w)
    requires Issues(s, w, v) || Drifts(s, w, v) || Edits(w, v) || GivesUp(w, v) || Records(w, v)
    ensures Invariant(s, v)
  {
  }

  lemma DecidingKeepsInvariant(s: Setting, w: World, v: World)
    requires SerialsAreUnique(s.authority) && Invariant(s, w)
    requires FindsNothing(w, v) || Changes(s, w, v) || CallsExport(w, v)
    ensures Invariant(s, v)
  {
    ExportIsDue(s, w, w.phase.desired, w.phase.latest, w.phase.seen);
  }

  lemma WritingKeepsInvariant(s: Setting, w: World, v: World)
    requires Invariant(s, w)
    requires WritesChain(s, w, v) || WritesKey(s, w, v)
    ensures Invariant(s, v)
  {
  }

  lemma StepKeepsInvariant(s: Setting, w: World, v: World)
    requires SerialsAreUnique(s.authority) && !s.recordsFailures
    requires Invariant(s, w) && Step(s, w, v)
    ensures Invariant(s, v)
  {
    if Reads(s, w, v) {
      ReadingIsConsistent(s, w, v);
    } else if FindsNothing(w, v) || Changes(s, w, v) || CallsExport(w, v) {
      DecidingKeepsInvariant(s, w, v);
    } else if WritesChain(s, w, v) || WritesKey(s, w, v) {
      WritingKeepsInvariant(s, w, v);
    } else {
      EnvironmentKeepsInvariant(s, w, v);
    }
  }

  lemma {:induction false} RunKeepsInvariant(s: Setting, worlds: seq<World>, i: nat)
    requires SerialsAreUnique(s.authority) && !s.recordsFailures
    requires Run(s, worlds) && i < |worlds|
    ensures Invariant(s, worlds[i])
  {
    if i > 0 {
      RunKeepsInvariant(s, worlds, i - 1);
      assert Step(s, worlds[i - 1], worlds[i - 1 + 1]);
      StepKeepsInvariant(s, worlds[i - 1], worlds[i]);
    }
  }

  // ---------- Main results ----------

  /**
   In every reachable state, whatever lands between the steps and whatever fails, the record is
   not ahead of the exported key, the key not ahead of the chain and the chain not ahead of ACM;
   this is so exactly when a failed update's returned resource is not recorded.
   */
  lemma RecordIsNeverAheadOfTheExport(s: Setting)
    requires SerialsAreUnique(s.authority)
    ensures (forall worlds: seq<World>, i: nat :: Run(s, worlds) && i < |worlds| ==> Ordered(worlds[i]))
      <==> !s.recordsFailures
  {
    if s.recordsFailures {
      RecordedFailureLosesTheIssue(s);
    } else {
      forall worlds: seq<World>, i: nat | Run(s, worlds) && i < |worlds|
        ensures Ordered(worlds[i])
      {
        RunKeepsInvariant(s, worlds, i);
      }
    }
  }

  /** In every reachable state a record of an issued certificate says so, with its serial number and an issue time. */
  lemma RecordSaysIssued(s: Setting, worlds: seq<World>, i: nat)
    requires SerialsAreUnique(s.authority) && !s.recordsFailures
    requires Run(s, worlds) && i < |worlds|
    ensures var w := worlds[i];
      if w.recordedGen == 0 then w.recorded.status.issuedAt.None? && w.recorded.status.serial.None?
      else
        && w.recorded.status.status == Some("ISSUED")
        && w.recorded.status.issuedAt.Some?
        && w.recorded.status.serial == Some(s.authority.serialOf(w.recordedGen))
  {
    RunKeepsInvariant(s, worlds, i);
  }

  /**
   In every reachable state, unless the chain is stored under the key's own name, the Secret's chain
   begins with the certificate of the generation exported, followed by the chain it came with.
   */
  lemma SecretChainIsLeafFirst(s: Setting, worlds: seq<World>, i: nat)
    requires SerialsAreUnique(s.authority) && !s.recordsFailures
    requires Run(s, worlds) && i < |worlds|
    ensures var w := worlds[i];
      s.exportTo.key != "tls.key" ==>
      && (w.chainGen > 0 ==>
           var chain := EntryOf(s.namespace, s.exportTo, s.exportTo.key);
           chain in w.data && LeafFirst(w.data[chain], s.authority.responseOf(w.chainGen)))
      && (w.keyGen > 0 ==>
           var key := EntryOf(s.namespace, s.exportTo, "tls.key");
           key in w.data && w.data[key] == s.authority.plainKeyOf(w.keyGen))
  {
    RunKeepsInvariant(s, worlds, i);
    ChainIsLeafFirst(s.authority.responseOf(worlds[i].chainGen));
  }

  /** A run of two worlds: the certificate is issued before the first read. */
  ghost function FirstRead(s: Setting): (worlds: seq<World>)
    ensures Run(s, worlds) && |worlds| == 2
    ensures worlds[1].phase.Observed? && worlds[1].phase.seen == worlds[1].gen == 1
    ensures ActionOf(worlds[1].phase).ExportNow?
    ensures !worlds[1].recorded.status.issuedAt.Some? && worlds[1].keyGen == 0
  {
    var spec := CertificateSpec(None, None, None, None, None, None, None, Some(s.exportTo), None, None, None, None,
      None, []);
    var status := CertificateStatus(Some(ResourceMetadata(Some("arn"), None, None, None)), None, None, None, None, None,
      None, None, None, None, None, None, None, None, None, None, None, None, None, None, None);
    var detail := CertificateDetail(None, None, None, None, None, None, "", None, None, Some(0), None, "RSA_2048", None,
      "", None, None, None, "", None, "", None, Some(s.authority.serialOf(1)), None, ISSUED, None, None, "");
    var start := World(1, detail, [], map[], 0, 0, Snapshot(spec, status), 0, Idle);
    var read := start.(phase := Observed(start.recorded, Observe(start.recorded, detail, [], s.id), 1));
    assert ListsWith([], WithAWSOf(Denote([]), Denote([])), KeyOrder([]), []);
    assert Starts(s, start) && Reads(s, start, read);
    ActionOnDifferences(read.phase.desired, read.phase.latest);
    [start, read]
  }

  /** The other half: the first export fails, its observation is recorded, and nothing was exported. */
  lemma RecordedFailureLosesTheIssue(s: Setting)
    requires s.recordsFailures
    ensures exists worlds: seq<World>, i: nat :: Run(s, worlds) && i < |worlds| && !Ordered(worlds[i])
  {
    var first := FirstRead(s);
    var read := first[1];
    var recorded := read.(recorded := Snapshot(read.recorded.spec, WithDefaults(read.phase.latest.status, s.id)),
                          recordedGen := 1, phase := Idle);
    assert RecordsFailure(s, read, recorded);
    var worlds := first + [recorded];
    assert Run(s, worlds) && !Ordered(worlds[2]);
  }

  /**
   The Secret holds the chain and the key of the generations exported, at every moment of every
   run, exactly when the chain is not stored under the key's own name.
   */
  lemma SecretHoldsWhatWasExported(s: Setting)
    requires SerialsAreUnique(s.authority) && !s.recordsFailures
    requires FullChain(s.authority.responseOf(1)) != s.authority.plainKeyOf(1)
    ensures (forall worlds: seq<World>, i: nat :: Run(s, worlds) && i < |worlds| ==> Holds(s, worlds[i]))
      <==> s.exportTo.key != TLS_KEY
  {
    if s.exportTo.key != TLS_KEY {
      forall worlds: seq<World>, i: nat | Run(s, worlds) && i < |worlds|
        ensures Holds(s, worlds[i])
      {
        RunKeepsInvariant(s, worlds, i);
      }
    } else {
      ChainUnderTheKeysNameIsLost(s);
    }
  }

  lemma ChainUnderTheKeysNameIsLost(s: Setting)
    requires FullChain(s.authority.responseOf(1)) != s.authority.plainKeyOf(1)
    requires s.exportTo.key == TLS_KEY
    ensures exists worlds: seq<World>, i: nat :: Run(s, worlds) && i < |worlds| && !Holds(s, worlds[i])
  {
    var first := FirstRead(s);
    var read := first[1];
    var called := Called(read);
    var chained := WithChain(s, called);
    var keyed := WithKey(s, chained);
    assert CallsExport(read, called) && WritesChain(s, called, chained) && WritesKey(s, chained, keyed);
    var worlds := first + [called, chained, keyed];
    assert Run(s, worlds) && !Holds(s, worlds[4]);
  }

  /** Neither chain nor key nor record is older in `v`. */
  ghost predicate NotOlder(w: World, v: World) {
    w.chainGen <= v.chainGen && w.keyGen <= v.keyGen && w.recordedGen <= v.recordedGen
  }

  lemma OutcomeIsNotOlder(s: Setting, w: World, v: World)
    requires Ordered(w) && InPhase(s, w)
    requires WritesChain(s, w, v) || WritesKey(s, w, v) || Records(w, v)
    ensures NotOlder(w, v)
  {
  }

  lemma StepGoesForward(s: Setting, w: World, v: World)
    requires Ordered(w) && InPhase(s, w) && Step(s, w, v) && !s.recordsFailures
    ensures NotOlder(w, v)
  {
    if WritesChain(s, w, v) || WritesKey(s, w, v) || Records(w, v) {
      OutcomeIsNotOlder(s, w, v);
    } else {
      assert NotOlder(w, v);
    }
  }

  lemma NextIsNotOlder(s: Setting, worlds: seq<World>, i: nat)
    requires SerialsAreUnique(s.authority) && !s.recordsFailures
    requires Run(s, worlds) && i < |worlds| - 1
    ensures NotOlder(worlds[i], worlds[i + 1])
  {
    RunKeepsInvariant(s, worlds, i);
    StepGoesForward(s, worlds[i], worlds[i + 1]);
  }

  lemma {:induction false} LaterIsNotOlder(worlds: seq<World>, i: nat, j: nat)
    requires forall k :: 0 <= k < |worlds| - 1 ==> NotOlder(worlds[k], worlds[k + 1])
    requires i <= j < |worlds|
    ensures NotOlder(worlds[i], worlds[j])
  {
    if i < j {
      LaterIsNotOlder(worlds, i, j - 1);
      assert NotOlder(worlds[j - 1], worlds[j - 1 + 1]);
    }
  }

  /** Neither the Secret nor the record ever goes back to an older certificate. */
  lemma NothingGoesBack(s: Setting, worlds: seq<World>, i: nat, j: nat)
    requires SerialsAreUnique(s.authority) && !s.recordsFailures
    requires Run(s, worlds) && i <= j < |worlds|
    ensures NotOlder(worlds[i], worlds[j])
  {
    forall k | 0 <= k < |worlds| - 1
      ensures NotOlder(worlds[k], worlds[k + 1])
    {
      NextIsNotOlder(s, worlds, k);
    }
    LaterIsNotOlder(worlds, i, j);
  }

  /**
   No renewal is lost: at any time of any run a read finds an export to do exactly when the record
   is behind ACM, and in particular whenever the Secret's chain or key is not the current one.
   */
  lemma NoRenewalIsLost(s: Setting, worlds: seq<World>, i: nat, read: World)
    requires SerialsAreUnique(s.authority) && !s.recordsFailures
    requires Run(s, worlds) && i < |worlds|
    requires Reads(s, worlds[i], read)
    ensures ActionOf(read.phase).ExportNow? <==> worlds[i].recordedGen < worlds[i].gen
    ensures worlds[i].chainGen != worlds[i].gen || worlds[i].keyGen != worlds[i].gen ==>
      ActionOf(read.phase).ExportNow? && Differences(read.phase.desired, read.phase.latest) != {}
  {
    RunKeepsInvariant(s, worlds, i);
    ReadingIsConsistent(s, worlds[i], read);
    ExportIsDue(s, read, read.phase.desired, read.phase.latest, read.phase.seen);
  }

  /** One export without interruption: read, call, write the chain, write the key, record. */
  ghost predicate ExportsUninterrupted(s: Setting, worlds: seq<World>, i: nat) {
    && i + 5 < |worlds|
    && Reads(s, worlds[i], worlds[i + 1])
    && CallsExport(worlds[i + 1], worlds[i + 2])
    && WritesChain(s, worlds[i + 2], worlds[i + 3])
    && WritesKey(s, worlds[i + 3], worlds[i + 4])
    && Records(worlds[i + 4], worlds[i + 5])
  }

  /** After an uninterrupted export the Secret is as one finished export leaves it. */
  lemma UninterruptedExport(s: Setting, worlds: seq<World>, i: nat)
    requires ExportsUninterrupted(s, worlds, i)
    ensures var w, answered := worlds[i + 5], s.authority.responseOf(worlds[i].gen);
      && w.keyGen == w.chainGen == w.gen == worlds[i].gen
      && w.recordedGen == worlds[i].gen
      && w.data == Exported(worlds[i].data, s.namespace, s.exportTo, answered, s.authority.plainKeyOf(w.gen))
  {
  }

  /**
   One uninterrupted export, after any history of failures, brings the record, the chain and the
   key to ACM's generation, with chain and key from one response, and leaves nothing to export.
   Both can be read back exactly when the chain has an entry of its own or happens to equal the key.
   */
  lemma OneExportCatchesUp(s: Setting, worlds: seq<World>, i: nat, read: World)
    requires SerialsAreUnique(s.authority) && !s.recordsFailures
    requires Run(s, worlds) && ExportsUninterrupted(s, worlds, i)
    requires Reads(s, worlds[i + 5], read)
    ensures var w := worlds[i + 5];
      var response, plainKey := s.authority.responseOf(w.gen), s.authority.plainKeyOf(w.gen);
      && w.recordedGen == w.keyGen == w.chainGen == w.gen == worlds[i].gen > 0
      && w.data == Exported(worlds[i].data, s.namespace, s.exportTo, response, plainKey)
      && w.data[KeyTarget(s.namespace, s.exportTo)] == plainKey
      && (w.data[ChainTarget(s.namespace, s.exportTo)] == FullChain(response)
          <==> s.exportTo.key != TLS_KEY || FullChain(response) == plainKey)
      && (s.exportTo.key != TLS_KEY ==> LeafFirst(w.data[ChainTarget(s.namespace, s.exportTo)], response))
    ensures worlds[i + 5].recorded.status.status == Some("ISSUED")
    ensures worlds[i + 5].recorded.status.serial == Some(s.authority.serialOf(worlds[i].gen))
    ensures !ActionOf(read.phase).ExportNow?
  {
    NoRenewalIsLost(s, worlds, i, worlds[i + 1]);
    NoRenewalIsLost(s, worlds, i + 5, read);
    UninterruptedExport(s, worlds, i);
    RecordSaysIssued(s, worlds, i + 5);
    var gen := worlds[i].gen;
    ExportIsReadBack(worlds[i].data, s.namespace, s.exportTo, s.authority.responseOf(gen), s.authority.plainKeyOf(gen));
  }

  // ---------- The operations behind the steps ----------

  /** Every pointer the update dereferences is there, and the export goes where the setting says. */
  ghost predicate CanBeUpdated(s: Setting, p: Phase)
    requires p.Observed?
  {
    && p.latest.spec.exportTo == Some(s.exportTo)
    && forall passphrase: Result<string>, exported: Result<ExportResponse> ::
      NothingNilIsUsed(ActionOf(p), p.desired, p.latest, passphrase, exported)
  }

  lemma ReadCanBeUpdated(s: Setting, w: World, v: World)
    requires SerialsAreUnique(s.authority) && Invariant(s, w) && Reads(s, w, v) && Usable(w.tags)
    ensures CanBeUpdated(s, v.phase)
  {
    ReadingIsConsistent(s, w, v);
    ExportIsDue(s, v, v.phase.desired, v.phase.latest, v.phase.seen);
    var own, order := Denote(w.recorded.spec.tags), KeyOrder(w.recorded.spec.tags);
    ListingKeepsTheMap(v.phase.desired.spec.tags, WithAWSOf(own, Denote(w.tags)), order);
    WellFormedIsUsable(v.phase.desired.spec.tags);
  }

  /** Between a read and the update only ACM and the user act, and neither touches what was read. */
  ghost predicate Carries(s: Setting, w: World, v: World) {
    v.phase.Observed? ==> CanBeUpdated(s, v.phase) || w.phase == v.phase
  }

  lemma ObservedIsRead(s: Setting, w: World, v: World)
    requires Step(s, w, v) && v.phase.Observed?
    ensures Reads(s, w, v) || w.phase == v.phase
  {
  }

  lemma NextCarries(s: Setting, worlds: seq<World>, i: nat)
    requires SerialsAreUnique(s.authority) && !s.recordsFailures
    requires Run(s, worlds) && i < |worlds| - 1 && Usable(worlds[i].tags)
    ensures Carries(s, worlds[i], worlds[i + 1])
  {
    if worlds[i + 1].phase.Observed? {
      RunKeepsInvariant(s, worlds, i);
      ObservedIsRead(s, worlds[i], worlds[i + 1]);
      if Reads(s, worlds[i], worlds[i + 1]) {
        ReadCanBeUpdated(s, worlds[i], worlds[i + 1]);
      }
    }
  }

  lemma {:induction false} CarriedFromTheRead(s: Setting, worlds: seq<World>, i: nat)
    requires forall k :: 0 <= k < |worlds| - 1 ==> Carries(s, worlds[k], worlds[k + 1])
    requires i < |worlds| && worlds[0].phase.Idle? && worlds[i].phase.Observed?
    ensures CanBeUpdated(s, worlds[i].phase)
  {
    assert Carries(s, worlds[i - 1], worlds[i - 1 + 1]);
    if worlds[i - 1].phase == worlds[i].phase {
      CarriedFromTheRead(s, worlds, i - 1);
    }
  }

  /**
   In every reachable state with an update ahead, the update dereferences no nil pointer, the key
   algorithm for decrypting included, as long as the tags ACM lists have keys and values.
   */
  lemma UpdateNeverMeetsNil(s: Setting, worlds: seq<World>, i: nat)
    requires SerialsAreUnique(s.authority) && !s.recordsFailures
    requires Run(s, worlds) && i < |worlds| && worlds[i].phase.Observed?
    requires forall k :: 0 <= k < |worlds| ==> Usable(worlds[k].tags)
    ensures CanBeUpdated(s, worlds[i].phase)
  {
    forall k | 0 <= k < |worlds| - 1
      ensures Carries(s, worlds[k], worlds[k + 1])
    {
      NextCarries(s, worlds, k);
    }
    CarriedFromTheRead(s, worlds, i);
  }

  /** The answers an export in the world `w` gets, if it gets any, are those of the current generation. */
  ghost predicate AnswersOf(s: Setting, w: World, passphrase: Result<string>, exported: Result<ExportResponse>,
                            decrypt: Decrypt)
    requires w.phase.Observed?
  {
    && (exported.Ok? ==> exported.value == s.authority.responseOf(w.gen))
    && (passphrase.Ok? && exported.Ok? && w.phase.latest.spec.keyAlgorithm.Some? ==>
         var plain := decrypt(exported.value.privateKey, passphrase.value, w.phase.latest.spec.keyAlgorithm.value);
         plain.Ok? ==> plain.value == s.authority.plainKeyOf(w.gen))
  }

  /**
   The protocol's export steps are what `ExportCertificate` can do to the Secret: success is the
   last of them, a failure stops after any of them, and when all answers are there each of these
   outcomes is possible.
   */
  lemma ExportRefinesTheSteps(s: Setting, w: World, passphrase: Result<string>, exported: Result<ExportResponse>,
                              decrypt: Decrypt, after: map<SecretKeyReference, string>)
    requires w.phase.Observed? && ActionOf(w.phase).ExportNow?
    requires w.phase.latest.spec.exportTo == Some(s.exportTo)
    requires AnswersOf(s, w, passphrase, exported, decrypt)
    ensures var spec, called := w.phase.latest.spec, Called(w);
      var chained := WithChain(s, called);
      var keyed := WithKey(s, chained);
      && CallsExport(w, called) && WritesChain(s, called, chained) && WritesKey(s, chained, keyed)
      && (ExportDone(w.data, after, s.namespace, spec, passphrase, exported, decrypt) ==> after == keyed.data)
      && (ExportFailed(w.data, after, s.namespace, spec, passphrase, exported, decrypt) ==>
           after == called.data || after == chained.data || after == keyed.data)
      && (ExportDone(w.data, keyed.data, s.namespace, spec, passphrase, exported, decrypt) ==>
           && ExportFailed(w.data, called.data, s.namespace, spec, passphrase, exported, decrypt)
           && ExportFailed(w.data, chained.data, s.namespace, spec, passphrase, exported, decrypt)
           && ExportFailed(w.data, keyed.data, s.namespace, spec, passphrase, exported, decrypt))
      && keyed.phase.result == UpdatedBy(ActionOf(w.phase), w.phase.desired, w.phase.latest, s.id)
  {
  }
}
