/** Certificate and key in the Secret: when they are of one issue, over runs. */
module Pairs {
  import opened Delta
  import opened Export
  import opened Reconcile
  import opened Protocol

  /** Certificate and key in the Secret are those of one issue. */
  ghost predicate Paired(s: State)
    requires s.cr.spec.exportTo.Some?
  {
    exists j: nat :: j < |s.world.acm.issues| && HoldsPair(s.cr, s.world.secrets, s.world.acm.issues[j])
  }

  /** The resource exports, and a pass under way exports to the same place. */
  predicate Aimed(s: State) {
    Exporting(s.cr) &&
    (s.phase.Observed? ==> s.phase.latest.namespace == s.cr.namespace && s.phase.latest.spec.exportTo == s.cr.spec.exportTo)
  }

  /** Whether the last export that touched the Secret got through both writes, after one more step. */
  predicate Whole(s: State, a: Action, before: bool)
    requires a.Act? ==> s.phase.Observed?
  {
    if a.Act? && ExportPending(s.phase.desired, s.phase.latest) && Touches(s.phase.latest, s.world.acm, a.faults.exporting)
    then !Torn(s.phase.latest, s.world.acm, a.faults.exporting)
    else before
  }

  /** The same after a run. */
  ghost predicate WholeAfter(cfg: Config, s: State, actions: seq<Action>, before: bool)
    decreases |actions|
  {
    if actions == [] then before
    else Enabled(cfg, s, actions[0]) && WholeAfter(cfg, Next(cfg, s, actions[0]), actions[1..], Whole(s, actions[0], before))
  }

  /** Edits leave the export target alone. */
  ghost predicate SteadyTarget(cfg: Config, s: State, actions: seq<Action>)
    decreases |actions|
  {
    actions == [] ||
    (Enabled(cfg, s, actions[0]) && (actions[0].Edit? ==> actions[0].spec.exportTo == s.cr.spec.exportTo) &&
     SteadyTarget(cfg, Next(cfg, s, actions[0]), actions[1..]))
  }

  /** What any update does to the Secret. */
  lemma SecretsAfter(cfg: Config, s: State, f: UpdateFaults)
    requires s.phase.Observed?
    ensures var s', latest := Concluded(cfg, s, f), s.phase.latest;
            && s'.world.acm.issues == s.world.acm.issues
            && s'.cr.namespace == s.cr.namespace && s'.cr.spec == s.cr.spec && s'.phase == Idle
            && s'.world.secrets == if ExportPending(s.phase.desired, latest)
                                   then ExportEffect(latest, s.world.acm, s.world.secrets, f.exporting).secrets
                                   else s.world.secrets
  {
    if ErrorFree(cfg, s, f) {
      ErrorFreePass(cfg, s, f);
    } else {
      FailedPass(cfg, s, f);
    }
  }

  /** An update leaves the pair of the current issue, or that certificate beside the key that was there,
      or the Secret as it was: told by how far its export gets. */
  lemma UpdateAndPair(cfg: Config, s: State, f: UpdateFaults)
    requires Aimed(s) && s.phase.Observed?
    ensures var s', touched := Concluded(cfg, s, f),
                ExportPending(s.phase.desired, s.phase.latest) && Touches(s.phase.latest, s.world.acm, f.exporting);
            if !touched then s'.world.secrets == s.world.secrets
            else
              && Current(s.world.acm).Some?
              && (if Torn(s.phase.latest, s.world.acm, f.exporting)
                  then
                    && HoldsCertificate(s.cr, s'.world.secrets, Current(s.world.acm).value)
                    && s'.world.secrets - {CertificateEntry(s.cr)} == s.world.secrets - {CertificateEntry(s.cr)}
                  else HoldsPair(s.cr, s'.world.secrets, Current(s.world.acm).value))
  {
    SecretsAfter(cfg, s, f);
    ExportTouches(s.phase.latest, s.world.acm, s.world.secrets, f.exporting);
  }

  /** The pair depends on the resource's target, the Secrets and the issues only. */
  lemma SamePair(s: State, s': State, j: nat)
    requires s.cr.spec.exportTo.Some? && s'.cr.spec.exportTo == s.cr.spec.exportTo && s'.cr.namespace == s.cr.namespace
    requires j < |s'.world.acm.issues| && HoldsPair(s.cr, s'.world.secrets, s'.world.acm.issues[j])
    ensures Paired(s')
  {
    assert HoldsPair(s'.cr, s'.world.secrets, s'.world.acm.issues[j]);
  }

  lemma ActKeepsPaired(cfg: Config, s: State, f: UpdateFaults, before: bool)
    requires Aimed(s) && s.phase.Observed? && (before ==> Paired(s))
    ensures Aimed(Concluded(cfg, s, f))
    ensures Whole(s, Act(f), before) ==> Paired(Concluded(cfg, s, f))
  {
    var issues := s.world.acm.issues;
    SecretsAfter(cfg, s, f);
    if Whole(s, Act(f), before) {
      UpdateAndPair(cfg, s, f);
      var j: nat;
      if ExportPending(s.phase.desired, s.phase.latest) && Touches(s.phase.latest, s.world.acm, f.exporting) {
        j := |issues| - 1;
      } else {
        j :| j < |issues| && HoldsPair(s.cr, s.world.secrets, issues[j]);
      }
      SamePair(s, Concluded(cfg, s, f), j);
    }
  }

  lemma StepKeepsPaired(cfg: Config, s: State, a: Action, before: bool)
    requires Aimed(s) && Enabled(cfg, s, a) && (before ==> Paired(s))
    requires a.Edit? ==> a.spec.exportTo == s.cr.spec.exportTo
    ensures Aimed(Next(cfg, s, a))
    ensures Whole(s, a, before) ==> Paired(Next(cfg, s, a))
  {
    if a.Act? {
      ActKeepsPaired(cfg, s, a.faults, before);
    } else {
      var s' := Next(cfg, s, a);
      if a.Read? {
        LatestRecords(cfg, s, a);
      }
      if before {
        var j: nat :| j < |s.world.acm.issues| && HoldsPair(s.cr, s.world.secrets, s.world.acm.issues[j]);
        assert s'.world.acm.issues[j] == s.world.acm.issues[j];
        SamePair(s, s', j);
      }
    }
  }

  /** Over every run, renewals, failures and panics anywhere: if the last export that touched the Secret
      got through both writes, certificate and key are of one issue. */
  lemma {:induction false} PairedOverRuns(cfg: Config, s: State, actions: seq<Action>, t: State, before: bool)
    requires Leads(cfg, s, actions, t)
    requires Aimed(s) && (before ==> Paired(s)) && SteadyTarget(cfg, s, actions)
    ensures Aimed(t) && (WholeAfter(cfg, s, actions, before) ==> Paired(t))
    decreases |actions|
  {
    if actions != [] {
      StepKeepsPaired(cfg, s, actions[0], before);
      PairedOverRuns(cfg, Next(cfg, s, actions[0]), actions[1..], t, Whole(s, actions[0], before));
    }
  }
}
