/** Where passes lead when nothing interferes, and the exports that are never made. */
module Convergence {
  import opened Values
  import opened Delta
  import opened Export
  import opened Reconcile
  import opened Protocol
  import OT = OrderedTags
  import TS = TagSync
  import TP = TagPipeline

  /* ----- exports that are never made ----- */

  /** The status records the current issue. */
  predicate RecordsCurrent(status: Status, acm: AcmCertificate) {
    Current(acm).Some? && Current(acm).value.issuedAt.Some?
    && status.serial == Some(Current(acm).value.serial) && status.issuedAt == Current(acm).value.issuedAt
  }

  /** The current issue is recorded, by the resource and by the pass under way. */
  predicate Settled(s: State) {
    && RecordsCurrent(s.cr.status, s.world.acm)
    && (s.phase.Observed? ==> RecordsCurrent(s.phase.desired.status, s.world.acm) && RecordsCurrent(s.phase.latest.status, s.world.acm))
  }

  predicate NoIssue(actions: seq<Action>) {
    forall a :: a in actions ==> !a.Issued?
  }

  lemma SettledStep(cfg: Config, s: State, a: Action)
    requires Settled(s) && Enabled(cfg, s, a) && !a.Issued?
    ensures Settled(Next(cfg, s, a)) && Next(cfg, s, a).world.secrets == s.world.secrets
  {
    match a
    case Read(_, _, _) => LatestRecords(cfg, s, a);
    case Act(f) =>
      assert !ExportPending(s.phase.desired, s.phase.latest);
      if ErrorFree(cfg, s, f) {
        ErrorFreePass(cfg, s, f);
      } else {
        FailedPass(cfg, s, f);
      }
    case _ =>
  }

  /** Once the current issue is recorded, no Secret is written until the next issue: whatever else
      happens, and even if an export target is only then added to the resource. */
  lemma {:induction false} NoExportUntilRenewal(cfg: Config, s: State, actions: seq<Action>, t: State)
    requires Settled(s) && Leads(cfg, s, actions, t) && NoIssue(actions)
    ensures Settled(t) && t.world.secrets == s.world.secrets
    decreases |actions|
  {
    if actions != [] {
      SettledStep(cfg, s, actions[0]);
      NoExportUntilRenewal(cfg, Next(cfg, s, actions[0]), actions[1..], t);
    }
  }

  /** The state a caller makes that stores what `Update` returns even when it returns an error; from an
      export that panics nothing returns. */
  function StoredRegardless(cfg: Config, s: State, f: UpdateFaults): State
    requires s.phase.Observed?
  {
    var reply := SdkUpdate(cfg.rm, s.phase.desired, s.phase.latest, PassAsked(cfg, s), s.world, f);
    var answered := NoPanic(s.phase.desired, s.phase.latest, PassAsked(cfg, s), s.world.acm, f.exporting);
    State(if answered then Persist(s.cr, UpdateReply(cfg.rm, s.phase.latest, reply)) else s.cr, reply.world, Idle)
  }

  /** Why the status must only be stored from error-free passes. After a failed export whose status is
      stored all the same, an export is due exactly if ACM has moved on: if the stored record is not
      the current issue and either records an issue or the certificate is ISSUED. */
  lemma StoredFailureDueExactly(cfg: Config, s: State, f: UpdateFaults)
    requires s.phase.Observed? && ExportPending(s.phase.desired, s.phase.latest) && !ErrorFree(cfg, s, f)
    requires Decryptable(s.phase.latest.spec, s.world.acm, f.exporting) && s.cr.spec.exportTo.Some?
    requires ProperIssues(s.world.acm.issues) && Coherent(s.phase.latest.status, s.world.acm.issues)
    ensures ExportDue(StoredRegardless(cfg, s, f)) <==>
            && !RecordsCurrent(s.phase.latest.status, s.world.acm)
            && (s.phase.latest.status.issuedAt.Some? || s.world.acm.status == "ISSUED")
  {
    StoredFailure(cfg, s, f);
    if !RecordsNothing(s.phase.latest.status) {
      var i: nat :| Records(s.phase.latest.status, s.world.acm.issues, i);
      assert s.world.acm.issues[i].issuedAt.Some?;
      assert Current(s.world.acm) == Some(s.world.acm.issues[|s.world.acm.issues| - 1]);
    }
  }

  lemma StoredFailure(cfg: Config, s: State, f: UpdateFaults)
    requires s.phase.Observed? && ExportPending(s.phase.desired, s.phase.latest) && !ErrorFree(cfg, s, f)
    requires Decryptable(s.phase.latest.spec, s.world.acm, f.exporting)
    ensures var after := StoredRegardless(cfg, s, f);
            && after.cr.spec == s.cr.spec && after.world.acm == s.world.acm && after.phase == Idle
            && after.cr.status.serial == s.phase.latest.status.serial && after.cr.status.issuedAt == s.phase.latest.status.issuedAt
            && after.world.secrets == ExportEffect(s.phase.latest, s.world.acm, s.world.secrets, f.exporting).secrets
  {
  }

  /** With the current issue stored that way the export is lost: the Secret stays what the failure left
      until the next issue. */
  lemma StoredFailureIsLost(cfg: Config, s: State, f: UpdateFaults, actions: seq<Action>, t: State)
    requires s.phase.Observed? && ExportPending(s.phase.desired, s.phase.latest) && !ErrorFree(cfg, s, f)
    requires Decryptable(s.phase.latest.spec, s.world.acm, f.exporting)
    requires RecordsCurrent(s.phase.latest.status, s.world.acm)
    requires Leads(cfg, StoredRegardless(cfg, s, f), actions, t) && NoIssue(actions)
    ensures t.world.secrets == ExportEffect(s.phase.latest, s.world.acm, s.world.secrets, f.exporting).secrets
    ensures f.exporting.request.Some? ==> t.world.secrets == s.world.secrets
    ensures Concluded(cfg, s, f).cr == s.cr
  {
    StoredFailure(cfg, s, f);
    FailedPass(cfg, s, f);
    NoExportUntilRenewal(cfg, StoredRegardless(cfg, s, f), actions, t);
  }

  /** A first issue that is overlooked and stored is not exported until the next one. */
  lemma OverlookedIsLost(cfg: Config, s: State, f: UpdateFaults, actions: seq<Action>, t: State)
    requires s.phase.Observed? && ErrorFree(cfg, s, f) && RecordsRead(cfg, s)
    requires Overlooked(s.phase.desired, s.phase.latest) && s.phase.desired.status.serial.None?
    requires RecordsCurrent(s.phase.latest.status, s.world.acm)
    requires Leads(cfg, Concluded(cfg, s, f), actions, t) && NoIssue(actions)
    ensures t.world.secrets == s.world.secrets
  {
    ErrorFreePass(cfg, s, f);
    NoExportUntilRenewal(cfg, Concluded(cfg, s, f), actions, t);
  }

  /** ISSUED without an issue time, as for an imported certificate. */
  predicate NeverDated(s: State) {
    && s.cr.spec.exportTo.Some? && s.cr.status.issuedAt.None?
    && s.world.acm.status == "ISSUED"
    && (Current(s.world.acm).Some? ==> Current(s.world.acm).value.issuedAt.None?)
    && (s.phase.Observed? ==>
          && s.phase.desired.spec.exportTo.Some? && s.phase.desired.status.issuedAt.None?
          && s.phase.latest.status.status == Some("ISSUED") && s.phase.latest.status.issuedAt.None?)
  }

  predicate OwnSteps(actions: seq<Action>) {
    forall a :: a in actions ==> a.Read? || a.Act? || a.GiveUp?
  }

  /** Such a certificate is exported again by every pass, however many have succeeded. */
  lemma {:induction false} ExportedForever(cfg: Config, s: State, actions: seq<Action>, t: State)
    requires NeverDated(s) && Leads(cfg, s, actions, t) && OwnSteps(actions)
    ensures NeverDated(t)
    ensures t.phase.Observed? ==> PassAsked(cfg, t).firstIssue
    decreases |actions|
  {
    if actions != [] {
      var a := actions[0];
      if a.Read? {
        LatestRecords(cfg, s, a);
        assert NonEmpty("ISSUED") == Some("ISSUED");
      } else if a.Act? {
        if ErrorFree(cfg, s, a.faults) {
          ErrorFreePass(cfg, s, a.faults);
        } else {
          FailedPass(cfg, s, a.faults);
        }
        ConcludedKeeps(cfg, s, a.faults);
      }
      ExportedForever(cfg, Next(cfg, s, a), actions[1..], t);
    }
  }

  /** What no update changes. */
  lemma ConcludedKeeps(cfg: Config, s: State, f: UpdateFaults)
    requires s.phase.Observed?
    ensures var s' := Concluded(cfg, s, f);
            && s'.cr.spec == s.cr.spec && s'.cr.tags == s.cr.tags && s'.cr.namespace == s.cr.namespace
            && s'.world.acm == s.world.acm.(options := s'.world.acm.options) && s'.phase == Idle
  {
  }

  /* ----- convergence ----- */

  /** No call fails. */
  predicate Calm(f: UpdateFaults) {
    && f.exporting.passphrase.Ok? && f.exporting.request.None? && f.exporting.writeCertificate.None?
    && f.exporting.decrypt.None? && f.exporting.writeKey.None?
    && f.remove.Succeeds? && f.add.Succeeds? && f.options.None?
  }

  /** An export is due: a pass would find it pending. */
  predicate ExportDue(s: State) {
    s.cr.spec.exportTo.Some? &&
    ((s.cr.status.issuedAt.None? && s.world.acm.status == "ISSUED") ||
     (s.cr.status.serial.Some? && Current(s.world.acm).Some? && s.cr.status.serial.value != Current(s.world.acm).value.serial))
  }

  /** The tags a pass asks for: the user's and the defaults, with AWS's own from the backend. */
  function DesiredTags(cfg: Config, s: State): OT.TagMap {
    OT.Merge(OT.Convert(s.cr.tags), cfg.defaults) + OT.AwsPart(s.world.tags)
  }

  predicate TagsOff(cfg: Config, s: State) {
    DesiredTags(cfg, s) != s.world.tags
  }

  /** The options ACM reports are not the ones asked for. */
  predicate OptionsOff(s: State) {
    s.cr.spec.options != match s.world.acm.options
                         case None => None
                         case Some(p) => Some(CertificateOptions(if p == "" then None else Some(p)))
  }

  /** A field that no update changes is not what the user asked for: the key algorithm, if both user and
      ACM give one, the authority, the domain name, or the alternative names. */
  predicate FieldsOff(cfg: Config, s: State) {
    var spec, facts := s.cr.spec, s.world.acm.facts;
    || (spec.keyAlgorithm.Some? && facts.keyAlgorithm != "" && Normalize(spec.keyAlgorithm.value) != Normalize(facts.keyAlgorithm))
    || spec.certificateAuthorityARN != facts.certificateAuthorityARN
    || spec.domainName != facts.domainName
    || NamesOff(spec.subjectAlternativeNames, facts.subjectAlternativeNames, cfg.same)
  }

  predicate NamesOff(asked: Option<seq<string>>, reported: Option<seq<string>>, same: ListEquality) {
    match (asked, reported)
    case (None, None) => false
    case (None, Some(n)) => n != []
    case (Some(m), None) => m != []
    case (Some(m), Some(n)) => |m| != |n| || (m != [] && !same(m, n))
  }

  predicate Imported(s: State) {
    s.world.acm.facts.origin == IMPORTED
  }

  /* ----- what stands in the way ----- */

  /** An exporting resource whose certificate is ISSUED without an issue time, as an imported one can be. */
  predicate Undated(s: State) {
    s.cr.spec.exportTo.Some? && s.world.acm.status == "ISSUED" &&
    (Current(s.world.acm).None? || Current(s.world.acm).value.issuedAt.None?)
  }

  /** An export is due and ACM reports no key algorithm: the export panics after its first write. */
  predicate Blocked(s: State) {
    ExportDue(s) && s.world.acm.facts.keyAlgorithm == ""
  }

  /** Options that differ and stay so: of an imported certificate, or with no preference to set. */
  predicate OptionsStuck(s: State) {
    OptionsOff(s) && (Imported(s) || !Preferred(s.cr.spec.options))
  }

  /** A recorded issue time that no pass overwrites: an imported certificate whose updates never get as
      far as recording the issue. */
  predicate Frozen(cfg: Config, s: State) {
    Imported(s) && (OptionsOff(s) || FieldsOff(cfg, s)) && s.cr.status.issuedAt.Some? && !ExportDue(s)
  }

  /** Passes will never be done exporting. */
  predicate ExportsForever(cfg: Config, s: State) {
    Blocked(s) || (Undated(s) && !Frozen(cfg, s))
  }

  /** What a read shows of options and fields. */
  lemma SpecShows(cfg: Config, s: State, a: Action)
    requires a.Read?
    ensures var desired, latest := DesiredOf(s, a), LatestOf(cfg, s, a);
            && (desired.spec.options != latest.spec.options <==> OptionsOff(s))
            && (OthersDiffer(desired, latest, cfg.same) <==> FieldsOff(cfg, s))
  {
    LatestRecords(cfg, s, a);
    ReadFields(s.cr.(tags := a.ensured), s.world.acm, a.listing, cfg.rm);
  }

  /** What it shows of the tags, whatever order they are listed or maps ranged over in. */
  lemma TagsShow(cfg: Config, s: State, a: Action)
    requires a.Read? && Enabled(cfg, s, a)
    ensures OT.Convert(DesiredOf(s, a).tags) == DesiredTags(cfg, s) && OT.Convert(LatestOf(cfg, s, a).tags) == s.world.tags
  {
    TP.ConvertEnumeration(a.listing, s.world.tags);
    TP.ConvertListOf(OT.Merge(OT.Convert(s.cr.tags), cfg.defaults), OT.KeyOrder(s.cr.tags), a.ensured);
    TP.ConvertListOf(OT.Convert(a.ensured) + OT.AwsPart(OT.Convert(a.listing)), OT.KeyOrder(a.ensured), a.mirrored);
  }

  /** What a read shows, whatever order it lists tags in. */
  lemma ReadShows(cfg: Config, s: State, a: Action)
    requires a.Read? && Enabled(cfg, s, a)
    ensures var desired, latest := DesiredOf(s, a), LatestOf(cfg, s, a);
            && OT.Convert(desired.tags) == DesiredTags(cfg, s) && OT.Convert(latest.tags) == s.world.tags
            && (ExportPending(desired, latest) <==> ExportDue(s))
            && (TagsDiffer(desired.tags, latest.tags) <==> TagsOff(cfg, s))
            && (desired.spec.options != latest.spec.options <==> OptionsOff(s))
            && (OthersDiffer(desired, latest, cfg.same) <==> FieldsOff(cfg, s))
            && (latest.status.origin == Some(IMPORTED) <==> Imported(s))
  {
    TagsShow(cfg, s, a);
    SpecShows(cfg, s, a);
    LatestRecords(cfg, s, a);
    assert NonEmpty("ISSUED") == Some("ISSUED");
    assert NonEmpty(s.world.acm.status) == Some("ISSUED") <==> s.world.acm.status == "ISSUED";
    assert NonEmpty(IMPORTED) == Some(IMPORTED);
  }

  /** One whole pass: the read `a` and what follows it. */
  function PassEnd(cfg: Config, s: State, a: Action, f: UpdateFaults): State
    requires a.Read?
  {
    Concluded(cfg, Next(cfg, s, a), f)
  }

  /** What every pass keeps. */
  predicate Kept(s: State, s': State) {
    && s'.cr.spec == s.cr.spec && s'.cr.tags == s.cr.tags && s'.cr.namespace == s.cr.namespace
    && s'.world.acm == s.world.acm.(options := s'.world.acm.options)
    && s'.phase == Idle && RecordedArn(s'.cr.status).Some?
  }

  /** The stored record is the current issue, or what it was. */
  predicate RecordsLatest(s': State) {
    s'.cr.status.serial == Describe(s'.world.acm).serial && s'.cr.status.issuedAt == Describe(s'.world.acm).issuedAt
  }

  predicate RecordsAsBefore(s: State, s': State) {
    s'.cr.status.serial == s.cr.status.serial && s'.cr.status.issuedAt == s.cr.status.issuedAt
  }

  /** A pass without an export records the issue it has read if nothing differs, or if it gets to the
      options call. */
  predicate WillRecord(cfg: Config, s: State) {
    || !(TagsOff(cfg, s) || OptionsOff(s) || FieldsOff(cfg, s))
    || (!Imported(s) && (OptionsOff(s) || FieldsOff(cfg, s)))
  }

  /** A calm pass with an export due: it succeeds exactly when there is an issue and a key algorithm. */
  predicate ExportStep(s: State, s': State) {
    && Kept(s, s') && s'.world.acm == s.world.acm && s'.world.tags == s.world.tags
    && if Current(s.world.acm).Some? && s.world.acm.facts.keyAlgorithm != "" then RecordsLatest(s') else RecordsAsBefore(s, s')
  }

  /** A calm pass with none: tags and options are set together, as far as they can be. */
  predicate SyncStep(cfg: Config, s: State, s': State) {
    && Kept(s, s') && s'.world.secrets == s.world.secrets && s'.world.tags == DesiredTags(cfg, s)
    && s'.world.acm.options == (if !Imported(s) && (OptionsOff(s) || FieldsOff(cfg, s))
                                then SetPreference(s.world.acm.options, s.cr.spec.options) else s.world.acm.options)
    && if WillRecord(cfg, s) then RecordsLatest(s') else RecordsAsBefore(s, s')
  }

  /** A calm export succeeds exactly when there is an issue to export and a key algorithm to read. */
  lemma CalmExportSucceeds(c: CertificateValue, acm: AcmCertificate, secrets: SecretMap, f: UpdateFaults)
    requires Calm(f) && c.spec.exportTo.Some?
    ensures ExportEffect(c, acm, secrets, f.exporting).error.None? <==> Current(acm).Some? && c.spec.keyAlgorithm.Some?
  {
  }

  lemma PassKeeps(cfg: Config, s: State, a: Action, f: UpdateFaults)
    requires a.Read? && Enabled(cfg, s, a)
    ensures Kept(s, PassEnd(cfg, s, a, f))
  {
    ConcludedKeeps(cfg, Next(cfg, s, a), f);
    ArnStays(cfg, Next(cfg, s, a), f);
  }

  lemma ArnStays(cfg: Config, s: State, f: UpdateFaults)
    requires s.phase.Observed? && RecordedArn(s.cr.status).Some?
    requires RecordedArn(s.phase.desired.status).Some? && RecordedArn(s.phase.latest.status).Some?
    ensures RecordedArn(Concluded(cfg, s, f).cr.status).Some?
  {
  }

  lemma ExportingPass(cfg: Config, s: State, a: Action, f: UpdateFaults)
    requires a.Read? && Enabled(cfg, s, a) && Calm(f) && ExportDue(s)
    ensures ExportStep(s, PassEnd(cfg, s, a, f))
    ensures ErrorFree(cfg, Next(cfg, s, a), f) <==> Current(s.world.acm).Some? && s.world.acm.facts.keyAlgorithm != ""
    ensures PassEnd(cfg, s, a, f).world.secrets == ExportEffect(LatestOf(cfg, s, a), s.world.acm, s.world.secrets, f.exporting).secrets
  {
    var o, latest := Next(cfg, s, a), LatestOf(cfg, s, a);
    PassKeeps(cfg, s, a, f);
    ReadShows(cfg, s, a);
    LatestRecords(cfg, s, a);
    CalmExportSucceeds(latest, s.world.acm, s.world.secrets, f);
    ExportBranchOnly(cfg, o, f);
    if ErrorFree(cfg, o, f) {
      ErrorFreePass(cfg, o, f);
    } else {
      FailedPass(cfg, o, f);
    }
  }

  /** A pass that exports does nothing else. */
  lemma ExportBranchOnly(cfg: Config, s: State, f: UpdateFaults)
    requires s.phase.Observed? && ExportPending(s.phase.desired, s.phase.latest)
    ensures Concluded(cfg, s, f).world == s.world.(secrets := ExportEffect(s.phase.latest, s.world.acm, s.world.secrets, f.exporting).secrets)
    ensures ErrorFree(cfg, s, f) <==> ExportEffect(s.phase.latest, s.world.acm, s.world.secrets, f.exporting).error.None?
  {
  }

  /** A calm pass delivers the pair of the current issue exactly when ACM reports a key algorithm, an
      issue being there. */
  lemma ExportingPassDelivers(cfg: Config, s: State, a: Action, f: UpdateFaults)
    requires a.Read? && Enabled(cfg, s, a) && Calm(f) && ExportDue(s) && Exporting(s.cr) && Current(s.world.acm).Some?
    ensures var s', issue := PassEnd(cfg, s, a, f), Current(s.world.acm).value;
            && HoldsCertificate(s.cr, s'.world.secrets, issue)
            && if s.world.acm.facts.keyAlgorithm != "" then HoldsPair(s.cr, s'.world.secrets, issue)
               else KeyEntry(s.cr) in s'.world.secrets <==> KeyEntry(s.cr) in s.world.secrets
  {
    var latest := LatestOf(cfg, s, a);
    ExportingPass(cfg, s, a, f);
    LatestRecords(cfg, s, a);
    CalmExportSucceeds(latest, s.world.acm, s.world.secrets, f);
    ExportTouches(latest, s.world.acm, s.world.secrets, f.exporting);
  }

  /** A calm update without an export, from a listing that matches the backend; an imported certificate
      refuses options that differ. */
  lemma CalmUpdate(rm: Identity, desired: CertificateValue, latest: CertificateValue, q: Asked, w: World, f: UpdateFaults)
    requires Calm(f) && !q.firstIssue && !q.renewed
    requires OT.Convert(latest.tags) == w.tags
    ensures var reply, imported := SdkUpdate(rm, desired, latest, q, w, f), latest.status.origin == Some(IMPORTED);
            && reply.world.secrets == w.secrets
            && reply.world.tags == (if q.tags then OT.Convert(desired.tags) else w.tags)
            && reply.world.acm == (if q.beyondTags && !imported
                                   then w.acm.(options := SetPreference(w.acm.options, desired.spec.options)) else w.acm)
            && (reply.result.Err? <==> q.beyondTags && imported && q.options)
            && (reply.result.Err? ==> reply.result.error == ONLY_TAGS)
  {
    var sync := TS.Sync(OT.Convert(desired.tags), w.tags, w.tags, f.remove, f.add);
    assert sync.error.None?;
    TS.FreshListingCompletes(OT.Convert(desired.tags), w.tags, f.remove, f.add);
  }

  /** The world after a calm pass without an export, and how it can fail. */
  lemma SyncedWorld(cfg: Config, s: State, a: Action, f: UpdateFaults)
    requires a.Read? && Enabled(cfg, s, a) && Calm(f) && !ExportDue(s)
    ensures var s' := PassEnd(cfg, s, a, f);
            && s'.world.secrets == s.world.secrets && s'.world.tags == DesiredTags(cfg, s)
            && s'.world.acm.options == (if !Imported(s) && (OptionsOff(s) || FieldsOff(cfg, s))
                                        then SetPreference(s.world.acm.options, s.cr.spec.options) else s.world.acm.options)
    ensures ErrorFree(cfg, Next(cfg, s, a), f) <==> !(Imported(s) && OptionsOff(s))
  {
    var desired, latest := DesiredOf(s, a), LatestOf(cfg, s, a);
    var q := Differing(desired, latest, cfg.same);
    ReadShows(cfg, s, a);
    CalmUpdate(cfg.rm, desired, latest, q, s.world, f);
  }

  /** What a calm pass without an export stores. */
  lemma SyncedRecord(cfg: Config, s: State, a: Action, f: UpdateFaults)
    requires a.Read? && Enabled(cfg, s, a) && Calm(f) && !ExportDue(s)
    ensures var s' := PassEnd(cfg, s, a, f);
            if WillRecord(cfg, s) then
              s'.cr.status.serial == Describe(s.world.acm).serial && s'.cr.status.issuedAt == Describe(s.world.acm).issuedAt
            else RecordsAsBefore(s, s')
  {
    var o := Next(cfg, s, a);
    ReadShows(cfg, s, a);
    LatestRecords(cfg, s, a);
    SyncedWorld(cfg, s, a, f);
    if ErrorFree(cfg, o, f) {
      ErrorFreePass(cfg, o, f);
    } else {
      FailedPass(cfg, o, f);
    }
  }

  lemma SyncingPass(cfg: Config, s: State, a: Action, f: UpdateFaults)
    requires a.Read? && Enabled(cfg, s, a) && Calm(f) && !ExportDue(s)
    ensures SyncStep(cfg, s, PassEnd(cfg, s, a, f))
  {
    PassKeeps(cfg, s, a, f);
    SyncedWorld(cfg, s, a, f);
    SyncedRecord(cfg, s, a, f);
  }

  /** Options that differ on an imported certificate: every calm pass without an export fails with the
      terminal error, changes nothing in ACM but the tags, and stores nothing; no other such pass fails. */
  lemma ImportedRefusesOptions(cfg: Config, s: State, a: Action, f: UpdateFaults)
    requires a.Read? && Enabled(cfg, s, a) && Calm(f) && !ExportDue(s)
    ensures var o := Next(cfg, s, a);
            var reply := SdkUpdate(cfg.rm, o.phase.desired, o.phase.latest, PassAsked(cfg, o), o.world, f);
            && (!ErrorFree(cfg, o, f) <==> Imported(s) && OptionsOff(s))
            && (!ErrorFree(cfg, o, f) ==>
                  reply.result == Err(ONLY_TAGS) && PassEnd(cfg, s, a, f).cr == s.cr && PassEnd(cfg, s, a, f).world.acm == s.world.acm)
  {
    var o := Next(cfg, s, a);
    ReadShows(cfg, s, a);
    CalmUpdate(cfg.rm, o.phase.desired, o.phase.latest, PassAsked(cfg, o), o.world, f);
    SyncedWorld(cfg, s, a, f);
    if !ErrorFree(cfg, o, f) {
      FailedPass(cfg, o, f);
      ConcludedKeeps(cfg, o, f);
    }
  }

  /** Options that differ with no preference to set: every calm pass without an export succeeds and
      leaves the certificate as it is. */
  lemma NoPreferenceChangesNothing(cfg: Config, s: State, a: Action, f: UpdateFaults)
    requires a.Read? && Enabled(cfg, s, a) && Calm(f) && !ExportDue(s)
    requires !Imported(s) && OptionsOff(s) && !Preferred(s.cr.spec.options)
    ensures ErrorFree(cfg, Next(cfg, s, a), f)
    ensures PassEnd(cfg, s, a, f).world.acm == s.world.acm && OptionsOff(PassEnd(cfg, s, a, f))
  {
    SyncingPass(cfg, s, a, f);
    SyncedWorld(cfg, s, a, f);
  }

  /* ----- one step of the two kinds ----- */

  /** What a calm pass does, read off the state alone. */
  predicate CalmStep(cfg: Config, s: State, s': State) {
    if ExportDue(s) then ExportStep(s, s') else SyncStep(cfg, s, s')
  }

  /** Asking for the AWS tags that are there asks for nothing more once they are. */
  lemma AwsStable(m: OT.TagMap, tags: OT.TagMap)
    ensures m + OT.AwsPart(m + OT.AwsPart(tags)) == m + OT.AwsPart(tags)
  {
  }

  /** After tags and options were set, only options that are stuck still differ. */
  lemma SyncedAfter(cfg: Config, s: State, s': State)
    requires SyncStep(cfg, s, s')
    ensures !TagsOff(cfg, s') && (OptionsOff(s') <==> OptionsStuck(s))
  {
    AwsStable(OT.Merge(OT.Convert(s.cr.tags), cfg.defaults), s.world.tags);
    OptionsAfter(cfg, s, s');
  }

  lemma OptionsAfter(cfg: Config, s: State, s': State)
    requires SyncStep(cfg, s, s')
    ensures OptionsOff(s') <==> OptionsStuck(s)
  {
    if Preferred(s.cr.spec.options) {
      assert NonEmpty(s.cr.spec.options.value.loggingPreference.value) == s.cr.spec.options.value.loggingPreference;
    }
  }

  /** What stands in the way stays in the way, and nothing comes in addition. */
  lemma ObstaclesStay(cfg: Config, s: State, s': State)
    requires CalmStep(cfg, s, s')
    ensures FieldsOff(cfg, s') <==> FieldsOff(cfg, s)
    ensures Undated(s') <==> Undated(s)
    ensures OptionsStuck(s') <==> OptionsStuck(s)
  {
    if !ExportDue(s) {
      OptionsAfter(cfg, s, s');
    }
  }

  /** When an export is due after a pass, exactly. */
  lemma DueAfter(cfg: Config, s: State, s': State)
    requires CalmStep(cfg, s, s')
    ensures ExportDue(s') <==> if ExportDue(s) then Blocked(s) || Undated(s) else Undated(s) && WillRecord(cfg, s)
  {
  }

  lemma ForeverStays(cfg: Config, s: State, s': State)
    requires CalmStep(cfg, s, s')
    ensures ExportsForever(cfg, s') <==> ExportsForever(cfg, s)
  {
    ObstaclesStay(cfg, s, s');
    DueAfter(cfg, s, s');
    if !ExportDue(s) {
      OptionsAfter(cfg, s, s');
    }
  }

  /* ----- the measure ----- */

  function One(pending: bool): nat {
    if pending then 1 else 0
  }

  /** How many passes it takes until nothing changes any more: one for an export and one for tags and
      options; or, if exports never end, those before the first of them. */
  function Measure(cfg: Config, s: State): (n: nat)
    ensures n <= 2
  {
    if ExportsForever(cfg, s) then
      if ExportDue(s) then 0 else if WillRecord(cfg, s) then 1 else 2
    else
      One(ExportDue(s)) + One(TagsOff(cfg, s) || (OptionsOff(s) && !OptionsStuck(s)))
  }

  /** A calm step takes care of one pending class, if there is one. */
  lemma MeasureStep(cfg: Config, s: State, s': State)
    requires CalmStep(cfg, s, s')
    ensures Measure(cfg, s') == if Measure(cfg, s) == 0 then 0 else Measure(cfg, s) - 1
  {
    ForeverStays(cfg, s, s');
    DueAfter(cfg, s, s');
    ObstaclesStay(cfg, s, s');
    if !ExportDue(s) {
      SyncedAfter(cfg, s, s');
    }
  }

  lemma QuietPass(cfg: Config, s: State, a: Action, f: UpdateFaults)
    requires a.Read? && Enabled(cfg, s, a) && Calm(f)
    ensures CalmStep(cfg, s, PassEnd(cfg, s, a, f))
    ensures Measure(cfg, PassEnd(cfg, s, a, f)) == if Measure(cfg, s) == 0 then 0 else Measure(cfg, s) - 1
  {
    if ExportDue(s) {
      ExportingPass(cfg, s, a, f);
    } else {
      SyncingPass(cfg, s, a, f);
    }
    MeasureStep(cfg, s, PassEnd(cfg, s, a, f));
  }

  /* ----- calm passes ----- */

  /** A pass: its read, and how its calls go. */
  datatype Pass = Pass(read: Action, faults: UpdateFaults)

  /** Calm passes, one after another with nothing in between, lead from `s` to `t`. */
  ghost predicate CalmPasses(cfg: Config, s: State, passes: seq<Pass>, t: State)
    decreases |passes|
  {
    if passes == [] then s == t
    else
      && passes[0].read.Read? && Enabled(cfg, s, passes[0].read) && Calm(passes[0].faults)
      && CalmPasses(cfg, PassEnd(cfg, s, passes[0].read, passes[0].faults), passes[1..], t)
  }

  /** A read is possible whenever an ARN is recorded. */
  lemma ReadExists(cfg: Config, s: State)
    requires s.phase.Idle? && RecordedArn(s.cr.status).Some?
    ensures exists a: Action :: a.Read? && Enabled(cfg, s, a)
  {
    TP.ListExists(OT.Merge(OT.Convert(s.cr.tags), cfg.defaults), OT.KeyOrder(s.cr.tags));
    var ensured :| OT.IsListOf(OT.Merge(OT.Convert(s.cr.tags), cfg.defaults), OT.KeyOrder(s.cr.tags), ensured);
    TP.EnumerationExists(s.world.tags);
    var listing :| OT.Enumerates(listing, s.world.tags);
    TP.ListExists(OT.Convert(ensured) + OT.AwsPart(OT.Convert(listing)), OT.KeyOrder(ensured));
    var mirrored :| OT.IsListOf(OT.Convert(ensured) + OT.AwsPart(OT.Convert(listing)), OT.KeyOrder(ensured), mirrored);
    assert PossibleRead(cfg, s, Read(ensured, listing, mirrored)) && Enabled(cfg, s, Read(ensured, listing, mirrored));
  }

  /** From every idle state with a recorded ARN there are calm passes, as many as one likes. */
  lemma {:induction false} CalmPassesExist(cfg: Config, s: State, f: UpdateFaults, n: nat) returns (passes: seq<Pass>, t: State)
    requires Calm(f) && s.phase.Idle? && RecordedArn(s.cr.status).Some?
    ensures |passes| == n && CalmPasses(cfg, s, passes, t)
    decreases n
  {
    if n == 0 {
      passes, t := [], s;
    } else {
      ReadExists(cfg, s);
      var a: Action :| a.Read? && Enabled(cfg, s, a);
      PassKeeps(cfg, s, a, f);
      var rest;
      rest, t := CalmPassesExist(cfg, PassEnd(cfg, s, a, f), f, n - 1);
      passes := [Pass(a, f)] + rest;
      assert passes[1..] == rest;
    }
  }

  /** Each calm pass takes one pending class away, and what stands in the way stays. */
  lemma {:induction false} MeasureFalls(cfg: Config, s: State, passes: seq<Pass>, t: State)
    requires CalmPasses(cfg, s, passes, t)
    ensures Measure(cfg, t) == if Measure(cfg, s) <= |passes| then 0 else Measure(cfg, s) - |passes|
    ensures (FieldsOff(cfg, t) <==> FieldsOff(cfg, s)) && (OptionsStuck(t) <==> OptionsStuck(s))
    ensures ExportsForever(cfg, t) <==> ExportsForever(cfg, s)
    decreases |passes|
  {
    if passes != [] {
      var s' := PassEnd(cfg, s, passes[0].read, passes[0].faults);
      QuietPass(cfg, s, passes[0].read, passes[0].faults);
      ObstaclesStay(cfg, s, s');
      ForeverStays(cfg, s, s');
      MeasureFalls(cfg, s', passes[1..], t);
    }
  }

  /** From any start, two calm passes later: an export is due exactly when exports never end, and
      otherwise the tags are as asked and so are the options unless they are stuck. */
  lemma AfterTwoPasses(cfg: Config, s: State, passes: seq<Pass>, t: State)
    requires CalmPasses(cfg, s, passes, t) && |passes| >= 2
    ensures ExportDue(t) <==> ExportsForever(cfg, s)
    ensures !ExportsForever(cfg, s) ==> t.world.tags == DesiredTags(cfg, t) && (OptionsOff(t) <==> OptionsStuck(s))
  {
    MeasureFalls(cfg, s, passes, t);
  }

  /** From any start, two calm passes later: the next comparison is empty exactly when no field differs
      that an update cannot change, no options are stuck, the certificate is not exported, ISSUED and
      undated, and no export is due without a key algorithm. */
  lemma TwoUpdatesSuffice(cfg: Config, s: State, passes: seq<Pass>, t: State, a: Action)
    requires CalmPasses(cfg, s, passes, t) && |passes| >= 2
    requires a.Read? && Enabled(cfg, t, a)
    ensures Differences(DesiredOf(t, a), LatestOf(cfg, t, a), cfg.same) == [] <==>
            !FieldsOff(cfg, s) && !OptionsStuck(s) && !Undated(s) && !Blocked(s)
  {
    AfterTwoPasses(cfg, s, passes, t);
    MeasureFalls(cfg, s, passes, t);
    ReadShows(cfg, t, a);
    DeltaMeaning(DesiredOf(t, a), LatestOf(cfg, t, a), cfg.same);
  }
}
