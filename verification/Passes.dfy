/** A pass of the machine of module Protocol is what the verified methods do, called in the order of
    the caller's loop. */
module Passes {
  import opened Values
  import opened Objects
  import opened Delta
  import opened Export
  import opened Reconcile
  import opened Protocol
  import OT = OrderedTags
  import TS = TagSync

  /* ----- what an update finds ----- */

  /** Between its read and its update a pass has an ARN, and tags whose keys and values are all there. */
  ghost predicate Ready(s: State) {
    s.phase.Observed? ==>
      && RecordedArn(s.phase.desired.status).Some?
      && TS.AllGiven(s.phase.desired.tags) && TS.AllGiven(s.phase.latest.tags)
  }

  lemma StepKeepsReady(cfg: Config, s: State, a: Action)
    requires Ready(s) && Enabled(cfg, s, a)
    ensures Ready(Next(cfg, s, a))
  {
    if a.Read? {
      TS.EnumerationGiven(a.listing, s.world.tags);
      TS.ListGiven(OT.Convert(a.ensured) + OT.AwsPart(OT.Convert(a.listing)), OT.KeyOrder(a.ensured), a.mirrored);
      LatestRecords(cfg, s, a);
    }
  }

  lemma {:induction false} ReadyOverRuns(cfg: Config, s: State, actions: seq<Action>, t: State)
    requires Ready(s) && Leads(cfg, s, actions, t)
    ensures Ready(t)
    decreases |actions|
  {
    if actions != [] {
      StepKeepsReady(cfg, s, actions[0]);
      ReadyOverRuns(cfg, Next(cfg, s, actions[0]), actions[1..], t);
    }
  }

  /** In every state a run reaches between a read and its update, the update finds all it dereferences,
      except exactly the key algorithm of a pending export that gets as far as needing it. */
  lemma UpdateCallable(cfg: Config, s: State, actions: seq<Action>, t: State, f: UpdateFaults)
    requires s.phase.Idle? && Leads(cfg, s, actions, t) && t.phase.Observed?
    ensures NoPanic(t.phase.desired, t.phase.latest, PassAsked(cfg, t), t.world.acm, f.exporting) <==>
            !(ExportPending(t.phase.desired, t.phase.latest) && !Decryptable(t.phase.latest.spec, t.world.acm, f.exporting))
  {
    ReadyOverRuns(cfg, s, actions, t);
    TS.GivenIsSyncable(t.phase.desired.tags);
    TS.GivenIsSyncable(t.phase.latest.tags);
  }

  /** A panicking update leaves the machine where a failing one does: the certificate entry is written,
      nothing is stored. */
  lemma PanicIsFailure(cfg: Config, s: State, f: UpdateFaults)
    requires s.phase.Observed? && ExportPending(s.phase.desired, s.phase.latest)
    requires !Decryptable(s.phase.latest.spec, s.world.acm, f.exporting)
    ensures !ErrorFree(cfg, s, f) && Concluded(cfg, s, f).cr == s.cr && Current(s.world.acm).Some?
    ensures Concluded(cfg, s, f).world.secrets ==
            s.world.secrets[CertificateEntry(s.phase.latest) := FullChain(Current(s.world.acm).value.body, Current(s.world.acm).value.chain)]
  {
    FailedPass(cfg, s, f);
    ExportTouches(s.phase.latest, s.world.acm, s.world.secrets, f.exporting);
  }

  /* ----- the two halves of a pass ----- */

  /** `EnsureTags` and `ReadOne`, as the caller calls them: an error exactly when no ARN is recorded or a
      call fails; otherwise a read the machine allows, to the state it says. */
  method ReadStep(cfg: Config, r: Certificate, acm: AcmCertificate, client: TS.TagClient, f: ReadFaults, ghost s: State)
    returns (latest: Certificate, error: Option<Error>, ghost a: Action)
    requires s.cr == r.Value() && s.phase.Idle? && s.world.acm == acm && s.world.tags == client.tags
    modifies r`tags
    ensures error.None? <==> RecordedArn(s.cr.status).Some? && f.describe.None? && f.list.None?
    ensures error.None? ==> a.Read? && Enabled(cfg, s, a) && Next(cfg, s, a).phase == Observed(r.Value(), latest.Value())
  {
    OT.EnsureTags(r, cfg.defaults);
    ghost var ensured := r.Value();
    assert ensured == s.cr.(tags := ensured.tags);
    ghost var answer, failure;
    latest, error, answer, failure := ReadOne(cfg.rm, r, acm, client, f);
    a := Read(ensured.tags, if answer.Some? then answer.value.tags else [], TagValues(r.tags));
  }

  /** The comparison and, for a difference under Spec, `Update`: the world the machine says, and the
      resource it stores unless there is an error. */
  method ActStep(cfg: Config, desired: Certificate, latest: Certificate, acm: AcmClient, client: TS.TagClient, store: SecretStore,
                 f: UpdateFaults, ghost s: State, ghost after: State)
    returns (result: Certificate, error: Option<Error>)
    requires s.phase == Observed(desired.Value(), latest.Value()) && s.world == WorldOf(acm, client, store)
    requires NoPanic(desired.Value(), latest.Value(), PassAsked(cfg, s), acm.certificate, f.exporting)
    requires after == Concluded(cfg, s, f)
    modifies acm, client, store
    ensures WorldOf(acm, client, store) == after.world
    ensures error.None? <==> ErrorFree(cfg, s, f)
    ensures after.cr == if error.None? then Persist(s.cr, result.Value()) else s.cr
  {
    var delta := NewResourceDelta(desired, latest, cfg.same);
    DeltaMeaning(desired.Value(), latest.Value(), cfg.same);
    if At(delta.differences, SPEC) {
      ghost var reply := SdkUpdate(cfg.rm, desired.Value(), latest.Value(), PassAsked(cfg, s), s.world, f);
      result, error := Update(cfg.rm, desired, latest, delta, acm, client, store, f, reply);
    } else {
      result, error := latest, None;
    }
  }
}
