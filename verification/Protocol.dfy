/** The reconcile protocol as a state machine: the caller's loop of read, compare, update and
    persist, with ACM, other clients and the user acting between any two of its steps. */
module Protocol {
  import opened Values
  import opened Delta
  import opened Export
  import opened Reconcile
  import OT = OrderedTags
  import C = Conditions

  /** What one controller runs with. */
  datatype Config = Config(rm: Identity, defaults: OT.TagMap, same: ListEquality)

  /** Between passes, or in a pass that has read the certificate. */
  datatype Phase = Idle | Observed(desired: CertificateValue, latest: CertificateValue)

  /** The stored resource, the world, and where the pass is. */
  datatype State = State(cr: CertificateValue, world: World, phase: Phase)

  datatype Action =
    | Issued(issue: Issue)
    | StatusChange(status: string)
    | Drift(tags: OT.TagMap, options: Option<string>)
    | Edit(spec: Spec, userTags: seq<TagValue>)
    | Read(ensured: seq<TagValue>, listing: seq<TagValue>, mirrored: seq<TagValue>)
    | Act(faults: UpdateFaults)
    | GiveUp

  /** The desired resource of a pass that starts in `s`. */
  function DesiredOf(s: State, a: Action): CertificateValue
    requires a.Read?
  {
    s.cr.(tags := a.mirrored)
  }

  /** The resource `ReadOne` returns to a pass that starts in `s`. */
  function LatestOf(cfg: Config, s: State, a: Action): CertificateValue
    requires a.Read?
  {
    C.UpdatedCertificate(Found(s.cr.(tags := a.ensured), Describe(s.world.acm), a.listing, cfg.rm), cfg.rm, true, None)
  }

  /** The lists of a read are ones the tag functions and the listing can produce; module Passes proves
      that the methods' reads are these. */
  ghost predicate PossibleRead(cfg: Config, s: State, a: Action)
    requires a.Read?
  {
    && OT.IsListOf(OT.Merge(OT.Convert(s.cr.tags), cfg.defaults), OT.KeyOrder(s.cr.tags), a.ensured)
    && OT.Enumerates(a.listing, s.world.tags)
    && OT.IsListOf(OT.Convert(a.ensured) + OT.AwsPart(OT.Convert(a.listing)), OT.KeyOrder(a.ensured), a.mirrored)
  }

  ghost predicate Enabled(cfg: Config, s: State, a: Action) {
    match a
    case Issued(issue) => forall i :: 0 <= i < |s.world.acm.issues| ==> s.world.acm.issues[i].serial != issue.serial
    case Read(_, _, _) => s.phase.Idle? && RecordedArn(s.cr.status).Some? && PossibleRead(cfg, s, a)
    case Act(_) => s.phase.Observed?
    case GiveUp => s.phase.Observed?
    case _ => true
  }

  /** The returned status is what is stored; the Spec is the user's. */
  function Persist(cr: CertificateValue, returned: CertificateValue): CertificateValue {
    cr.(status := returned.status, conditions := returned.conditions)
  }

  /** The caller's comparison and what follows: an update only for a difference under Spec, and the
      returned status stored unless there was an error. */
  function Concluded(cfg: Config, s: State, f: UpdateFaults): State
    requires s.phase.Observed?
  {
    var desired, latest := s.phase.desired, s.phase.latest;
    var q := Differing(desired, latest, cfg.same);
    if !q.anything then State(Persist(s.cr, latest), s.world, Idle)
    else
      var reply := SdkUpdate(cfg.rm, desired, latest, q, s.world, f);
      State(if reply.result.Ok? then Persist(s.cr, UpdateReply(cfg.rm, latest, reply)) else s.cr, reply.world, Idle)
  }

  function Next(cfg: Config, s: State, a: Action): State
    requires a.Act? ==> s.phase.Observed?
  {
    var acm := s.world.acm;
    match a
    case Issued(issue) => s.(world := s.world.(acm := acm.(issues := acm.issues + [issue])))
    case StatusChange(status) => s.(world := s.world.(acm := acm.(status := status)))
    case Drift(tags, options) => s.(world := s.world.(tags := tags, acm := acm.(options := options)))
    case Edit(spec, userTags) => s.(cr := s.cr.(spec := spec, tags := userTags))
    case Read(_, _, _) => s.(phase := Observed(DesiredOf(s, a), LatestOf(cfg, s, a)))
    case Act(f) => Concluded(cfg, s, f)
    case GiveUp => s.(phase := Idle)
  }

  /** The actions lead from `s` to `t`. */
  ghost predicate Leads(cfg: Config, s: State, actions: seq<Action>, t: State)
    decreases |actions|
  {
    if actions == [] then s == t
    else Enabled(cfg, s, actions[0]) && Leads(cfg, Next(cfg, s, actions[0]), actions[1..], t)
  }

  /* ----- export freshness ----- */

  /** ACM reports an issue time with every issue, and no two issues share a serial. */
  ghost predicate ProperIssues(issues: seq<Issue>) {
    && (forall i :: 0 <= i < |issues| ==> issues[i].issuedAt.Some?)
    && (forall i, j :: 0 <= i < j < |issues| ==> issues[i].serial != issues[j].serial)
  }

  /** The status records issue number `i`. */
  predicate Records(status: Status, issues: seq<Issue>, i: nat) {
    i < |issues| && status.serial == Some(issues[i].serial) && status.issuedAt == issues[i].issuedAt
  }

  predicate RecordsNothing(status: Status) {
    status.serial.None? && status.issuedAt.None?
  }

  ghost predicate Coherent(status: Status, issues: seq<Issue>) {
    RecordsNothing(status) || exists i: nat :: Records(status, issues, i)
  }

  /** The Secret's certificate, and its key, are from issue `i` or a later one. */
  ghost predicate NotOlder(c: CertificateValue, secrets: SecretMap, issues: seq<Issue>, i: nat)
    requires c.spec.exportTo.Some?
  {
    && (exists j: nat :: i <= j < |issues| && HoldsCertificate(c, secrets, issues[j]))
    && (exists j: nat :: i <= j < |issues| && HoldsKey(c, secrets, issues[j]))
  }

  predicate HoldsCertificate(c: CertificateValue, secrets: SecretMap, issue: Issue)
    requires c.spec.exportTo.Some?
  {
    CertificateEntry(c) in secrets && secrets[CertificateEntry(c)] == FullChain(issue.body, issue.chain)
  }

  predicate HoldsKey(c: CertificateValue, secrets: SecretMap, issue: Issue)
    requires c.spec.exportTo.Some?
  {
    KeyEntry(c) in secrets && secrets[KeyEntry(c)] == issue.key
  }

  /** The Secret is never older than the recorded serial. */
  ghost predicate Fresh(s: State)
    requires s.cr.spec.exportTo.Some?
  {
    forall i: nat :: Records(s.cr.status, s.world.acm.issues, i) ==> NotOlder(s.cr, s.world.secrets, s.world.acm.issues, i)
  }

  /** Exporting to a target whose certificate entry is not the key's entry. */
  predicate Exporting(c: CertificateValue) {
    c.spec.exportTo.Some? && c.spec.exportTo.value.key != TLS_KEY
  }

  /** The first sight of an issue time comes with another status than ISSUED: no export is triggered. */
  predicate Overlooked(desired: CertificateValue, latest: CertificateValue) {
    desired.status.issuedAt.None? && latest.status.issuedAt.Some? && latest.status.status != Some("ISSUED")
  }

  /** A pass's two resources agree with what is stored and with what ACM has issued. */
  ghost predicate PassAgrees(s: State) {
    s.phase.Observed? ==>
      var desired, latest := s.phase.desired, s.phase.latest;
      && desired.status == s.cr.status
      && desired.namespace == latest.namespace == s.cr.namespace
      && desired.spec.exportTo == latest.spec.exportTo == s.cr.spec.exportTo
      && Coherent(latest.status, s.world.acm.issues)
  }

  ghost predicate Inv(s: State) {
    && Exporting(s.cr) && ProperIssues(s.world.acm.issues)
    && Coherent(s.cr.status, s.world.acm.issues) && PassAgrees(s) && Fresh(s)
  }

  /** The assumptions on an action: ACM's promise about issues, an unchanged export target, and no
      first sight of an issue time under another status than ISSUED. */
  predicate Allowed(cfg: Config, s: State, a: Action) {
    match a
    case Issued(issue) => issue.issuedAt.Some?
    case Edit(spec, _) => spec.exportTo == s.cr.spec.exportTo
    case Read(_, _, _) => !Overlooked(DesiredOf(s, a), LatestOf(cfg, s, a))
    case _ => true
  }

  ghost predicate AllAllowed(cfg: Config, s: State, actions: seq<Action>)
    decreases |actions|
  {
    actions == [] ||
    (Enabled(cfg, s, actions[0]) && Allowed(cfg, s, actions[0]) && AllAllowed(cfg, Next(cfg, s, actions[0]), actions[1..]))
  }

  /** What a read records of the issue. */
  lemma LatestRecords(cfg: Config, s: State, a: Action)
    requires a.Read?
    ensures var latest, acm := LatestOf(cfg, s, a), s.world.acm;
            && latest.namespace == s.cr.namespace && latest.spec == ReadSpec(s.cr.spec, Describe(acm)) && latest.tags == a.listing
            && latest.status.status == NonEmpty(acm.status)
            && latest.status.origin == NonEmpty(acm.facts.origin)
            && (if acm.issues == [] then RecordsNothing(latest.status) else Records(latest.status, acm.issues, |acm.issues| - 1))
  {
  }

  /* ----- one update, against what its delta answers ----- */

  /** What the pass's delta answers. */
  function PassAsked(cfg: Config, s: State): Asked
    requires s.phase.Observed?
  {
    Differing(s.phase.desired, s.phase.latest, cfg.same)
  }

  /** The pass ends without an error: nothing to do, or an update that succeeds. */
  predicate ErrorFree(cfg: Config, s: State, f: UpdateFaults)
    requires s.phase.Observed?
  {
    !PassAsked(cfg, s).anything ||
    SdkUpdate(cfg.rm, s.phase.desired, s.phase.latest, PassAsked(cfg, s), s.world, f).result.Ok?
  }

  /** The pass stores the issue it has read: its delta is empty, or it reaches the options call. */
  predicate RecordsRead(cfg: Config, s: State)
    requires s.phase.Observed?
  {
    var q := PassAsked(cfg, s);
    !q.anything || (q.beyondTags && s.phase.latest.status.origin != Some(IMPORTED))
  }

  /** What an error-free pass stores and does to the Secret, exactly: an export and the issue read when
      an export is pending; otherwise no export, and the issue read or the issue stored before. */
  lemma ErrorFreePass(cfg: Config, s: State, f: UpdateFaults)
    requires s.phase.Observed? && ErrorFree(cfg, s, f)
    ensures Concluded(cfg, s, f).world.acm.issues == s.world.acm.issues
    ensures var s', latest := Concluded(cfg, s, f), s.phase.latest;
            if ExportPending(s.phase.desired, latest) then
              && ExportEffect(latest, s.world.acm, s.world.secrets, f.exporting) == ExportResult(s'.world.secrets, None)
              && s'.cr.status.serial == latest.status.serial && s'.cr.status.issuedAt == latest.status.issuedAt
            else
              && s'.world.secrets == s.world.secrets
              && if RecordsRead(cfg, s) then
                   s'.cr.status.serial == latest.status.serial && s'.cr.status.issuedAt == latest.status.issuedAt
                 else
                   s'.cr.status.serial == s.phase.desired.status.serial && s'.cr.status.issuedAt == s.phase.desired.status.issuedAt
  {
  }

  /** A pass that ends in an error stores nothing, and has at most begun an export that is pending. */
  lemma FailedPass(cfg: Config, s: State, f: UpdateFaults)
    requires s.phase.Observed? && !ErrorFree(cfg, s, f)
    ensures var s', latest := Concluded(cfg, s, f), s.phase.latest;
            && s'.cr == s.cr && s'.world.acm.issues == s.world.acm.issues
            && s'.world.secrets == if ExportPending(s.phase.desired, latest)
                                   then ExportEffect(latest, s.world.acm, s.world.secrets, f.exporting).secrets
                                   else s.world.secrets
  {
  }

  /* ----- freshness is kept ----- */

  lemma SameIssue(status: Status, issues: seq<Issue>, i: nat, k: nat)
    requires ProperIssues(issues) && i < |issues| && k < |issues|
    requires status.serial == Some(issues[i].serial) == Some(issues[k].serial)
    ensures i == k
  {
  }

  /** The export of a pass leaves the Secret at the current issue, hence no older than the issue read. */
  lemma ExportIsFresh(c: CertificateValue, latest: CertificateValue, acm: AcmCertificate, secrets: SecretMap, f: ExportFaults, k: nat)
    requires Exporting(c) && latest.spec.exportTo == c.spec.exportTo && latest.namespace == c.namespace
    requires k < |acm.issues| && ExportEffect(latest, acm, secrets, f).error.None?
    ensures NotOlder(c, ExportEffect(latest, acm, secrets, f).secrets, acm.issues, k)
  {
  }

  /** What is asked of the Secret depends on the resource's namespace and target only. */
  lemma SameTarget(a: CertificateValue, b: CertificateValue, secrets: SecretMap, issues: seq<Issue>, i: nat)
    requires a.namespace == b.namespace && a.spec.exportTo == b.spec.exportTo && a.spec.exportTo.Some?
    ensures NotOlder(a, secrets, issues, i) <==> NotOlder(b, secrets, issues, i)
  {
  }

  lemma FailedPassKeepsFresh(cfg: Config, s: State, f: UpdateFaults)
    requires Inv(s) && s.phase.Observed? && !ErrorFree(cfg, s, f)
    ensures Fresh(Concluded(cfg, s, f))
  {
    FailedPass(cfg, s, f);
    BegunExportKeepsFresh(s, Concluded(cfg, s, f), f.exporting);
  }

  lemma BegunExportKeepsFresh(s: State, s': State, f: ExportFaults)
    requires Inv(s) && s.phase.Observed?
    requires s'.cr == s.cr && s'.world.acm.issues == s.world.acm.issues
    requires s'.world.secrets == s.world.secrets || s'.world.secrets == ExportEffect(s.phase.latest, s.world.acm, s.world.secrets, f).secrets
    ensures Fresh(s')
  {
    forall i: nat | Records(s'.cr.status, s.world.acm.issues, i)
      ensures NotOlder(s'.cr, s'.world.secrets, s.world.acm.issues, i)
    {
      FailedExportOrNot(s.cr, s.phase.latest, s.world.acm, s.world.secrets, f, i);
    }
  }

  lemma ExportingPassKeepsFresh(cfg: Config, s: State, f: UpdateFaults, k: nat)
    requires Inv(s) && s.phase.Observed? && Records(s.phase.latest.status, s.world.acm.issues, k)
    requires ErrorFree(cfg, s, f) && ExportPending(s.phase.desired, s.phase.latest)
    ensures Fresh(Concluded(cfg, s, f))
  {
    var s' := Concluded(cfg, s, f);
    ErrorFreePass(cfg, s, f);
    ExportIsFresh(s.cr, s.phase.latest, s.world.acm, s.world.secrets, f.exporting, k);
    SameTarget(s.cr, s'.cr, s'.world.secrets, s.world.acm.issues, k);
    OnlyRecord(s', k);
  }

  lemma UnrecordedPassKeepsFresh(cfg: Config, s: State, f: UpdateFaults)
    requires Inv(s) && s.phase.Observed? && ErrorFree(cfg, s, f)
    requires !ExportPending(s.phase.desired, s.phase.latest) && !RecordsRead(cfg, s)
    ensures Fresh(Concluded(cfg, s, f))
  {
    var s' := Concluded(cfg, s, f);
    ErrorFreePass(cfg, s, f);
    forall i: nat | Records(s'.cr.status, s.world.acm.issues, i)
      ensures NotOlder(s'.cr, s'.world.secrets, s.world.acm.issues, i)
    {
      assert Records(s.cr.status, s.world.acm.issues, i);
      SameTarget(s.cr, s'.cr, s.world.secrets, s.world.acm.issues, i);
    }
  }

  /** With no export pending and nothing overlooked, the issue read is the one stored. */
  lemma NothingNewToRecord(s: State, k: nat)
    requires Inv(s) && s.phase.Observed? && Records(s.phase.latest.status, s.world.acm.issues, k)
    requires !ExportPending(s.phase.desired, s.phase.latest) && !Overlooked(s.phase.desired, s.phase.latest)
    ensures Records(s.cr.status, s.world.acm.issues, k)
  {
  }

  /** Every pass, exactly: it keeps the Secret no older than what is stored unless it overlooks a first
      issue, stores it, and the Secret does not happen to hold it. */
  lemma PassKeepsFreshExactly(cfg: Config, s: State, f: UpdateFaults, k: nat)
    requires Inv(s) && s.phase.Observed? && Records(s.phase.latest.status, s.world.acm.issues, k)
    ensures var hazard := Overlooked(s.phase.desired, s.phase.latest) && ErrorFree(cfg, s, f) && RecordsRead(cfg, s);
            Fresh(Concluded(cfg, s, f)) <==> !hazard || NotOlder(s.cr, s.world.secrets, s.world.acm.issues, k)
  {
    if !ErrorFree(cfg, s, f) {
      FailedPassKeepsFresh(cfg, s, f);
    } else if ExportPending(s.phase.desired, s.phase.latest) {
      ExportingPassKeepsFresh(cfg, s, f, k);
      OverlookedIsNotPending(s);
    } else if !RecordsRead(cfg, s) {
      UnrecordedPassKeepsFresh(cfg, s, f);
    } else {
      var s' := Concluded(cfg, s, f);
      ErrorFreePass(cfg, s, f);
      OnlyRecord(s', k);
      SameTarget(s.cr, s'.cr, s.world.secrets, s.world.acm.issues, k);
      if !Overlooked(s.phase.desired, s.phase.latest) {
        NothingNewToRecord(s, k);
      }
    }
  }

  lemma OverlookedIsNotPending(s: State)
    requires Inv(s) && s.phase.Observed?
    ensures Overlooked(s.phase.desired, s.phase.latest) ==> !ExportPending(s.phase.desired, s.phase.latest)
  {
  }

  /** A pass that has read no issue at all stores none. */
  lemma PassWithoutIssue(cfg: Config, s: State, f: UpdateFaults)
    requires Inv(s) && s.phase.Observed? && RecordsNothing(s.phase.latest.status)
    ensures Fresh(Concluded(cfg, s, f))
  {
    if !ErrorFree(cfg, s, f) {
      FailedPassKeepsFresh(cfg, s, f);
    } else {
      ErrorFreePass(cfg, s, f);
      if !ExportPending(s.phase.desired, s.phase.latest) && !RecordsRead(cfg, s) {
        UnrecordedPassKeepsFresh(cfg, s, f);
      }
    }
  }

  lemma FailedExportOrNot(c: CertificateValue, latest: CertificateValue, acm: AcmCertificate, secrets: SecretMap, f: ExportFaults, k: nat)
    requires Exporting(c) && latest.spec.exportTo == c.spec.exportTo && latest.namespace == c.namespace
    requires NotOlder(c, secrets, acm.issues, k)
    ensures NotOlder(c, ExportEffect(latest, acm, secrets, f).secrets, acm.issues, k)
  {
  }

  /** A status records at most one issue. */
  lemma OnlyRecord(s: State, k: nat)
    requires s.cr.spec.exportTo.Some? && ProperIssues(s.world.acm.issues) && Records(s.cr.status, s.world.acm.issues, k)
    ensures Fresh(s) <==> NotOlder(s.cr, s.world.secrets, s.world.acm.issues, k)
  {
  }

  /** A new issue leaves the Secret as old as it was against what is stored. */
  lemma IssueKeepsFresh(s: State, issue: Issue)
    requires Inv(s) && issue.issuedAt.Some?
    requires forall i :: 0 <= i < |s.world.acm.issues| ==> s.world.acm.issues[i].serial != issue.serial
    ensures var issues := s.world.acm.issues + [issue];
            && ProperIssues(issues)
            && (forall status :: Coherent(status, s.world.acm.issues) ==> Coherent(status, issues))
            && (forall i: nat :: Records(s.cr.status, issues, i) ==> NotOlder(s.cr, s.world.secrets, issues, i))
  {
    var before, after := s.world.acm.issues, s.world.acm.issues + [issue];
    assert forall i :: 0 <= i < |before| ==> after[i] == before[i];
    forall status | Coherent(status, before) && !RecordsNothing(status)
      ensures Coherent(status, after)
    {
      var i: nat :| Records(status, before, i);
      assert Records(status, after, i);
    }
    forall i: nat | Records(s.cr.status, after, i)
      ensures NotOlder(s.cr, s.world.secrets, after, i)
    {
      var n: nat :| Records(s.cr.status, before, n);
      SameIssue(s.cr.status, after, i, n);
      var j: nat :| n <= j < |before| && HoldsCertificate(s.cr, s.world.secrets, before[j]);
      var l: nat :| n <= l < |before| && HoldsKey(s.cr, s.world.secrets, before[l]);
      assert HoldsCertificate(s.cr, s.world.secrets, after[j]) && HoldsKey(s.cr, s.world.secrets, after[l]);
    }
  }

  /** Between the read and the update the pass overlooks nothing. */
  predicate Sighted(s: State) {
    s.phase.Observed? ==> !Overlooked(s.phase.desired, s.phase.latest)
  }

  lemma ActKeepsInv(cfg: Config, s: State, f: UpdateFaults)
    requires Inv(s) && Sighted(s) && s.phase.Observed?
    ensures Inv(Concluded(cfg, s, f))
  {
    var s', issues := Concluded(cfg, s, f), s.world.acm.issues;
    if RecordsNothing(s.phase.latest.status) {
      PassWithoutIssue(cfg, s, f);
    } else {
      var k: nat :| Records(s.phase.latest.status, issues, k);
      PassKeepsFreshExactly(cfg, s, f, k);
    }
    if ErrorFree(cfg, s, f) {
      ErrorFreePass(cfg, s, f);
      SameRecord(s'.cr.status, s.phase.latest.status, issues);
      SameRecord(s'.cr.status, s.phase.desired.status, issues);
    } else {
      FailedPass(cfg, s, f);
    }
  }

  lemma SameRecord(a: Status, b: Status, issues: seq<Issue>)
    ensures a.serial == b.serial && a.issuedAt == b.issuedAt ==> (Coherent(a, issues) <==> Coherent(b, issues))
  {
    assert a.serial == b.serial && a.issuedAt == b.issuedAt ==> forall i: nat :: Records(a, issues, i) <==> Records(b, issues, i);
  }

  lemma ReadKeepsInv(cfg: Config, s: State, a: Action)
    requires Inv(s) && a.Read? && Enabled(cfg, s, a) && Allowed(cfg, s, a)
    ensures Inv(Next(cfg, s, a)) && Sighted(Next(cfg, s, a))
  {
    LatestRecords(cfg, s, a);
  }

  lemma IssueKeepsInv(cfg: Config, s: State, a: Action)
    requires Inv(s) && Sighted(s) && a.Issued? && Enabled(cfg, s, a) && Allowed(cfg, s, a)
    ensures Inv(Next(cfg, s, a)) && Sighted(Next(cfg, s, a))
  {
    IssueKeepsFresh(s, a.issue);
  }

  lemma EditKeepsInv(cfg: Config, s: State, a: Action)
    requires Inv(s) && Sighted(s) && a.Edit? && Allowed(cfg, s, a)
    ensures Inv(Next(cfg, s, a)) && Sighted(Next(cfg, s, a))
  {
    var s' := Next(cfg, s, a);
    forall i: nat | Records(s'.cr.status, s.world.acm.issues, i)
      ensures NotOlder(s'.cr, s'.world.secrets, s.world.acm.issues, i)
    {
      SameTarget(s.cr, s'.cr, s.world.secrets, s.world.acm.issues, i);
    }
  }

  lemma StepKeepsInv(cfg: Config, s: State, a: Action)
    requires Inv(s) && Sighted(s) && Enabled(cfg, s, a) && Allowed(cfg, s, a)
    ensures Inv(Next(cfg, s, a)) && Sighted(Next(cfg, s, a))
  {
    match a
    case Issued(_) => IssueKeepsInv(cfg, s, a);
    case Edit(_, _) => EditKeepsInv(cfg, s, a);
    case Read(_, _, _) => ReadKeepsInv(cfg, s, a);
    case Act(f) => ActKeepsInv(cfg, s, f);
    case _ =>
  }

  /** A new resource, exporting, with nothing recorded yet. */
  predicate Initial(s: State) {
    Exporting(s.cr) && RecordsNothing(s.cr.status) && s.phase.Idle?
  }

  /** Over every run, with renewals, failures, drift and edits anywhere, also between a read and its
      export: the Secret is never older than the recorded serial. */
  lemma {:induction false} FreshOverRuns(cfg: Config, s: State, actions: seq<Action>, t: State)
    requires Inv(s) && Sighted(s)
    requires Leads(cfg, s, actions, t) && AllAllowed(cfg, s, actions)
    ensures Inv(t) && Fresh(t)
    decreases |actions|
  {
    if actions != [] {
      StepKeepsInv(cfg, s, actions[0]);
      FreshOverRuns(cfg, Next(cfg, s, actions[0]), actions[1..], t);
    }
  }

  /** The theorem from the start: whatever ACM has issued before. */
  lemma ExportFreshness(cfg: Config, s: State, actions: seq<Action>, t: State)
    requires Initial(s) && ProperIssues(s.world.acm.issues)
    requires Leads(cfg, s, actions, t) && AllAllowed(cfg, s, actions)
    ensures t.cr.spec.exportTo == s.cr.spec.exportTo
    ensures Exporting(t.cr) && Fresh(t)
  {
    FreshOverRuns(cfg, s, actions, t);
    TargetStays(cfg, s, actions, t);
  }

  lemma {:induction false} TargetStays(cfg: Config, s: State, actions: seq<Action>, t: State)
    requires Leads(cfg, s, actions, t) && AllAllowed(cfg, s, actions)
    ensures t.cr.spec.exportTo == s.cr.spec.exportTo
    decreases |actions|
  {
    if actions != [] {
      TargetStays(cfg, Next(cfg, s, actions[0]), actions[1..], t);
    }
  }
}
