/** What an update answers, does and stores, spelled out from the two resources and the faults of its
    calls, without the functions module Reconcile builds it from. */
module Outcomes {
  import opened Values
  import opened Delta
  import opened Export
  import opened Reconcile
  import opened Protocol
  import OT = OrderedTags
  import R = Reads
  import TS = TagSync

  /** An export is needed: the certificate is ISSUED and no issue time is recorded, or its serial is not
      the recorded one. */
  predicate ExportNeeded(desired: CertificateValue, latest: CertificateValue) {
    desired.spec.exportTo.Some? &&
    ((desired.status.issuedAt.None? && latest.status.status == Some("ISSUED")) ||
     (desired.status.serial.Some? && latest.status.serial.Some? && desired.status.serial.value != latest.status.serial.value))
  }

  /** Something other than the tags differs, no export being needed. */
  predicate BeyondTags(desired: CertificateValue, latest: CertificateValue, same: ListEquality) {
    desired.spec.options != latest.spec.options || OthersDiffer(desired, latest, same)
  }

  predicate IsImported(latest: CertificateValue) {
    latest.status.origin == Some("IMPORTED")
  }

  /** The update of a pass: its answer, and the world after it. */
  function UpdateOf(cfg: Config, s: State, f: UpdateFaults): Reply
    requires s.phase.Observed?
  {
    SdkUpdate(cfg.rm, s.phase.desired, s.phase.latest, PassAsked(cfg, s), s.world, f)
  }

  function TagsOf(s: State, f: UpdateFaults): TS.SyncOutcome
    requires s.phase.Observed?
  {
    TS.Sync(OT.Convert(s.phase.desired.tags), OT.Convert(s.phase.latest.tags), s.world.tags, f.remove, f.add)
  }

  /** A needed export is all that happens: its error is the answer, and only Secrets change. */
  lemma ExportAnswers(cfg: Config, s: State, f: UpdateFaults)
    requires s.phase.Observed? && ExportNeeded(s.phase.desired, s.phase.latest)
    ensures var e := ExportEffect(s.phase.latest, s.world.acm, s.world.secrets, f.exporting);
            && UpdateOf(cfg, s, f).world == World(s.world.acm, s.world.tags, e.secrets)
            && match e.error
               case Some(error) => UpdateOf(cfg, s, f).result == Err(error)
               case None => UpdateOf(cfg, s, f).result.Ok?
  {
  }

  /** Tags that differ and fail to be synchronised: the error is the answer, nothing else is attempted,
      and nothing is stored. */
  lemma FailedTagsAnswer(cfg: Config, s: State, f: UpdateFaults)
    requires s.phase.Observed? && !ExportNeeded(s.phase.desired, s.phase.latest)
    requires R.ValuesDiffer(s.phase.desired.tags, s.phase.latest.tags) && TagsOf(s, f).error.Some?
    ensures UpdateOf(cfg, s, f).result == Err(TagsOf(s, f).error.value)
    ensures !ErrorFree(cfg, s, f) && Concluded(cfg, s, f).cr == s.cr
    ensures Concluded(cfg, s, f).world == World(s.world.acm, TagsOf(s, f).Final(s.world.tags), s.world.secrets)
  {
    R.MapsDiffer(s.phase.desired.tags, s.phase.latest.tags);
  }

  /** Otherwise the tags are synchronised if they differ, and then: an imported certificate answers the
      terminal error exactly if its options differ; any other whose Spec differs beyond the tags has its
      options updated, and that call's error is the answer. */
  lemma SyncedTagsAnswer(cfg: Config, s: State, f: UpdateFaults)
    requires s.phase.Observed? && !ExportNeeded(s.phase.desired, s.phase.latest)
    requires R.ValuesDiffer(s.phase.desired.tags, s.phase.latest.tags) ==> TagsOf(s, f).error.None?
    ensures var d, l, w, reply := s.phase.desired, s.phase.latest, s.world, UpdateOf(cfg, s, f);
            var reached := BeyondTags(d, l, cfg.same) && !IsImported(l);
            && reply.world.secrets == w.secrets
            && reply.world.tags == (if R.ValuesDiffer(d.tags, l.tags)
                                    then TS.SyncedTags(OT.Convert(d.tags), OT.Convert(l.tags), w.tags) else w.tags)
            && reply.world.acm == (match (reached, d.spec.options)
                                   case (true, Some(CertificateOptions(Some(preference)))) =>
                                     if preference == "" || (f.options.Some? && !f.options.value.landed) then w.acm
                                     else w.acm.(options := Some(preference))
                                   case _ => w.acm)
            && (reached && f.options.Some? ==> reply.result == Err(f.options.value.error))
            && (IsImported(l) && d.spec.options != l.spec.options ==> reply.result.Err? && reply.result.error.TerminalError?)
            && (reply.result.Ok? <==> !(reached && f.options.Some?) && !(IsImported(l) && d.spec.options != l.spec.options))
  {
    R.MapsDiffer(s.phase.desired.tags, s.phase.latest.tags);
    if R.ValuesDiffer(s.phase.desired.tags, s.phase.latest.tags) {
      TS.SyncedFinal(OT.Convert(s.phase.desired.tags), OT.Convert(s.phase.latest.tags), s.world.tags, f.remove, f.add);
    }
  }

  /** When a pass without a needed export is free of errors, exactly: the tag calls it makes succeed, and
      so does the options call if it makes one, or the certificate is imported with the options asked for. */
  lemma ErrorFreeExactly(cfg: Config, s: State, f: UpdateFaults)
    requires s.phase.Observed? && !ExportNeeded(s.phase.desired, s.phase.latest)
    ensures var d, l := s.phase.desired, s.phase.latest;
            ErrorFree(cfg, s, f) <==>
              && (R.ValuesDiffer(d.tags, l.tags) ==> TagsOf(s, f).error.None?)
              && (BeyondTags(d, l, cfg.same) ==> if IsImported(l) then d.spec.options == l.spec.options else f.options.None?)
  {
    R.MapsDiffer(s.phase.desired.tags, s.phase.latest.tags);
    if R.ValuesDiffer(s.phase.desired.tags, s.phase.latest.tags) && TagsOf(s, f).error.Some? {
      FailedTagsAnswer(cfg, s, f);
    } else {
      SyncedTagsAnswer(cfg, s, f);
    }
  }

  /** The pass records what it has read: it exported, it updated options, or nothing differed. */
  predicate Recording(cfg: Config, s: State)
    requires s.phase.Observed?
  {
    var d, l := s.phase.desired, s.phase.latest;
    ExportNeeded(d, l) || (if BeyondTags(d, l, cfg.same) then !IsImported(l) else !TagsDiffer(d.tags, l.tags))
  }

  /** The resource an update returns without an error: the desired one, but for the issue time, serial
      and status read, and for a region and owner that were missing. */
  lemma UpdatedResource(cfg: Config, s: State, f: UpdateFaults)
    requires s.phase.Observed? && PassAsked(cfg, s).anything && UpdateOf(cfg, s, f).result.Ok?
    ensures var d, l, u := s.phase.desired, s.phase.latest, UpdateOf(cfg, s, f).result.value;
            if Recording(cfg, s) then
              && u.(status := d.status) == d
              && u.status.issuedAt == l.status.issuedAt && u.status.serial == l.status.serial && u.status.status == l.status.status
              && u.status.origin == d.status.origin && u.status.details == d.status.details
              && RecordedArn(u.status) == RecordedArn(d.status) && PlaceFilled(d.status, u.status, cfg.rm)
            else u == d
  {
  }

  /** What `Update` hands back: the updated resource or, on an error, the latest; in either case with
      nothing changed but the conditions and a missing region or owner. */
  lemma ReturnedResource(rm: Identity, latest: CertificateValue, reply: Reply)
    ensures var base, returned := match reply.result { case Ok(u) => u case Err(_) => latest }, UpdateReply(rm, latest, reply);
            && returned.(status := base.status, conditions := base.conditions) == base
            && returned.status.(metadata := base.status.metadata) == base.status
            && RecordedArn(returned.status) == RecordedArn(base.status) && PlaceFilled(base.status, returned.status, rm)
  {
  }

  /** What a pass stores: nothing on an error; else the issue time, serial and status read if it records
      them, and those stored before if not. The Spec and the tags are never touched. */
  lemma StoredRecord(cfg: Config, s: State, f: UpdateFaults)
    requires s.phase.Observed?
    ensures var before, after := s.cr, Concluded(cfg, s, f).cr;
            && after.namespace == before.namespace && after.spec == before.spec && after.tags == before.tags
            && if !ErrorFree(cfg, s, f) then after == before
               else
                 var from := if Recording(cfg, s) then s.phase.latest.status else s.phase.desired.status;
                 after.status.issuedAt == from.issuedAt && after.status.serial == from.serial && after.status.status == from.status
  {
    if PassAsked(cfg, s).anything && ErrorFree(cfg, s, f) {
      UpdatedResource(cfg, s, f);
      ReturnedResource(cfg.rm, s.phase.latest, UpdateOf(cfg, s, f));
    }
  }
}
