/** Reading and updating: `sdkFind`, `ReadOne`, `sdkUpdate` and `Update` of sdk.go and manager.go. */
module Reconcile {
  import opened Values
  import opened Objects
  import opened Delta
  import opened Export
  import OT = OrderedTags
  import TS = TagSync
  import C = Conditions
  import CR = ConditionRuns

  /* ----- DescribeCertificate ----- */

  datatype DescribeOutput = DescribeOutput(
    arn: Option<string>,
    issuedAt: Option<int>,
    serial: Option<string>,
    status: string,
    options: Option<string>,
    facts: Facts)

  /** What ACM answers about a certificate. */
  function Describe(acm: AcmCertificate): DescribeOutput {
    var issue := Current(acm);
    DescribeOutput(
      Some(acm.arn),
      if issue.Some? then issue.value.issuedAt else None,
      if issue.Some? then Some(issue.value.serial) else None,
      acm.status,
      acm.options,
      acm.facts)
  }

  /* ----- sdkFind ----- */

  /** The Spec's validation options, from the fuller records of the response. */
  function Validations(records: seq<SdkValidation>): seq<ValidationOption> {
    seq(|records|, i requires 0 <= i < |records| => ValidationOption(records[i].domainName, records[i].validationDomain))
  }

  method CollectValidations(records: seq<SdkValidation>) returns (options: seq<ValidationOption>)
    ensures options == Validations(records)
  {
    options := [];
    for i := 0 to |records|
      invariant options == Validations(records[..i])
    {
      options := options + [ValidationOption(records[i].domainName, records[i].validationDomain)];
    }
    assert records[..|records|] == records;
  }

  /** The Spec fields a read overwrites; the others keep what was passed in. */
  function ReadSpec(spec: Spec, resp: DescribeOutput): Spec {
    spec.(
      certificateAuthorityARN := resp.facts.certificateAuthorityARN,
      domainName := resp.facts.domainName,
      domainValidationOptions := if resp.facts.validations.Some? then Some(Validations(resp.facts.validations.value)) else None,
      keyAlgorithm := NonEmpty(resp.facts.keyAlgorithm),
      options := if resp.options.Some? then Some(CertificateOptions(NonEmpty(resp.options.value))) else None,
      subjectAlternativeNames := resp.facts.subjectAlternativeNames)
  }

  /** The Status a read leaves: all of it is the response's, except a recorded ARN the response does not repeat. */
  function ReadStatus(status: Status, resp: DescribeOutput, rm: Identity): Status {
    var metadata := if status.metadata.Some? then status.metadata.value else Metadata(None, None, None);
    WithDefaults(
      Status(
        Some(if resp.arn.Some? then metadata.(arn := resp.arn) else metadata),
        resp.issuedAt,
        resp.serial,
        NonEmpty(resp.status),
        NonEmpty(resp.facts.origin),
        resp.facts.details),
      rm)
  }

  /** The resource `sdkFind` returns. */
  function Found(r: CertificateValue, resp: DescribeOutput, tags: seq<TagValue>, rm: Identity): CertificateValue {
    CertificateValue(r.namespace, ReadSpec(r.spec, resp), tags, ReadStatus(r.status, resp, rm), r.conditions)
  }

  /** The Spec's validation options are the response's: the same many, or none at all, each with both of
      its halves. */
  predicate SameValidations(options: Option<seq<ValidationOption>>, records: Option<seq<SdkValidation>>) {
    && options.Some? == records.Some?
    && (options.Some? ==>
          && |options.value| == |records.value|
          && forall i :: 0 <= i < |options.value| ==>
               && options.value[i].domainName == records.value[i].domainName
               && options.value[i].validationDomain == records.value[i].validationDomain)
  }

  /** Every field of a read, from the certificate in ACM: the last issue's time and serial, the status, the
      origin, the details, the tags listed and the Spec's tracked fields are ACM's; the recorded ARN is
      the certificate's; region and owner are filled in if missing; the rest is what was passed in. */
  lemma ReadFields(r: CertificateValue, acm: AcmCertificate, tags: seq<TagValue>, rm: Identity)
    ensures var found := Found(r, Describe(acm), tags, rm);
            && found.tags == tags && found.namespace == r.namespace && found.conditions == r.conditions
            && found.spec.certificateAuthorityARN == acm.facts.certificateAuthorityARN
            && found.spec.domainName == acm.facts.domainName
            && found.spec.subjectAlternativeNames == acm.facts.subjectAlternativeNames
            && SameValidations(found.spec.domainValidationOptions, acm.facts.validations)
            && found.spec.keyAlgorithm == (if acm.facts.keyAlgorithm == "" then None else Some(acm.facts.keyAlgorithm))
            && found.spec.options == (match acm.options
                                      case None => None
                                      case Some(p) => Some(CertificateOptions(if p == "" then None else Some(p))))
            && found.spec == Spec(r.spec.certificate, r.spec.certificateARN, found.spec.certificateAuthorityARN,
                                  r.spec.certificateAuthorityRef, r.spec.certificateChain, found.spec.domainName,
                                  found.spec.domainValidationOptions, r.spec.exportTo, found.spec.keyAlgorithm,
                                  found.spec.options, r.spec.privateKey, found.spec.subjectAlternativeNames)
            && found.status.issuedAt == (if acm.issues == [] then None else acm.issues[|acm.issues| - 1].issuedAt)
            && found.status.serial == (if acm.issues == [] then None else Some(acm.issues[|acm.issues| - 1].serial))
            && found.status.status == (if acm.status == "" then None else Some(acm.status))
            && found.status.origin == (if acm.facts.origin == "" then None else Some(acm.facts.origin))
            && found.status.details == acm.facts.details
            && RecordedArn(found.status) == Some(acm.arn)
            && PlaceFilled(r.status, found.status, rm)
  {
  }

  /** Region and owner are what was recorded, or else the manager's. */
  predicate PlaceFilled(before: Status, after: Status, rm: Identity) {
    && after.metadata.Some?
    && after.metadata.value.region ==
       (match before.metadata
        case Some(Metadata(_, _, Some(region))) => Some(region)
        case _ => Some(rm.region))
    && after.metadata.value.owner ==
       (match before.metadata
        case Some(Metadata(_, Some(owner), _)) => Some(owner)
        case _ => Some(rm.account))
  }

  /** How the two calls of a read go: an error of DescribeCertificate, then one of ListTagsForCertificate. */
  datatype ReadFaults = ReadFaults(describe: Option<Error>, list: Option<Error>)

  /** The error a failed DescribeCertificate becomes. */
  function FindError(error: Error): Error {
    var api := C.AsApiError(error);
    if api.Some? && api.value.Api? && api.value.code == "ResourceNotFoundException" then NotFound else error
  }

  /** Not found is what a response means whose first API error says that the resource does not exist: the
      answer that leads to a create. Every other error stays what it is. */
  lemma FindErrorExactly(error: Error)
    ensures FindError(error) ==
            match CR.FirstApi(CR.Chain(error))
            case Some(Api(code, _)) => if code == "ResourceNotFoundException" then NotFound else error
            case _ => error
  {
    CR.ApiInChain(error);
  }

  /** `resourceTagsFromSDKTags`: the listed tags as new objects. */
  method ResourceTags(list: seq<TagValue>) returns (tags: seq<Tag>)
    ensures TagValues(tags) == list
    ensures forall t :: t in tags ==> fresh(t)
  {
    tags := [];
    for i := 0 to |list|
      invariant |tags| == i && TagValues(tags) == list[..i]
      invariant forall t :: t in tags ==> fresh(t)
    {
      var tag := new Tag(list[i].key, list[i].value);
      tags := tags + [tag];
    }
  }

  /** What a read answers: the error, if there is one, or the resource for some listing of the tags. */
  ghost predicate FindAnswers(r: CertificateValue, acm: AcmCertificate, tags: OT.TagMap, rm: Identity, f: ReadFaults,
                              observed: Option<CertificateValue>, error: Option<Error>) {
    if RecordedArn(r.status).None? then observed.None? && error == Some(NotFound)
    else if f.describe.Some? then observed.None? && error == Some(FindError(f.describe.value))
    else if f.list.Some? then observed.None? && error == f.list
    else
      && error.None? && observed.Some?
      && OT.Enumerates(observed.value.tags, tags)
      && observed.value == Found(r, Describe(acm), observed.value.tags, rm)
  }

  ghost function ValueOf(c: Certificate?): Option<CertificateValue>
    reads c, if c == null then [] else c.tags, if c == null then [] else c.conditions
  {
    if c == null then None else Some(c.Value())
  }

  method SdkFind(rm: Identity, r: Certificate, acm: AcmCertificate, client: TS.TagClient, f: ReadFaults)
    returns (observed: Certificate?, error: Option<Error>)
    ensures FindAnswers(r.Value(), acm, client.tags, rm, f, ValueOf(observed), error)
    ensures observed != null ==> fresh(observed) && (forall t :: t in observed.tags ==> fresh(t)) && (forall c :: c in observed.conditions ==> fresh(c))
  {
    if r.status.metadata == None || r.status.metadata.value.arn == None {
      return null, Some(NotFound);
    }
    if f.describe != None {
      var api := C.AsApiError(f.describe.value);
      if api.Some? && api.value.Api? && api.value.code == "ResourceNotFoundException" {
        return null, Some(NotFound);
      }
      return null, f.describe;
    }
    var list;
    list, error := client.ListTagsForCertificate(f.list);
    if error != None {
      return null, error;
    }
    observed := Overlay(r, Describe(acm), list, rm);
  }

  /** The copy of the resource, overlaid with the observation. */
  method Overlay(r: Certificate, resp: DescribeOutput, list: seq<TagValue>, rm: Identity) returns (ko: Certificate)
    ensures ko.Value() == Found(r.Value(), resp, list, rm)
    ensures fresh(ko) && (forall t :: t in ko.tags ==> fresh(t)) && (forall c :: c in ko.conditions ==> fresh(c))
  {
    ko := r.DeepCopy();
    ghost var copied := ko.Value();
    var listed := ResourceTags(list);
    SetObservation(ko, resp, listed, rm);
    assert ConditionValues(ko.conditions) == copied.conditions;
  }

  /** The assignments of `sdkFind` to the copy it returns. */
  method SetObservation(ko: Certificate, resp: DescribeOutput, tags: seq<Tag>, rm: Identity)
    modifies ko`spec, ko`tags, ko`status
    ensures ko.tags == tags
    ensures ko.spec == ReadSpec(old(ko.spec), resp)
    ensures ko.status == ReadStatus(old(ko.status), resp, rm)
  {
    ko.tags := tags;
    if ko.status.metadata == None {
      ko.status := ko.status.(metadata := Some(Metadata(None, None, None)));
    }
    if resp.arn != None {
      ko.status := ko.status.(metadata := Some(ko.status.metadata.value.(arn := resp.arn)));
    }
    ko.spec := ko.spec.(certificateAuthorityARN := resp.facts.certificateAuthorityARN, domainName := resp.facts.domainName);
    if resp.facts.validations != None {
      var options := CollectValidations(resp.facts.validations.value);
      ko.spec := ko.spec.(domainValidationOptions := Some(options));
    } else {
      ko.spec := ko.spec.(domainValidationOptions := None);
    }
    ko.spec := ko.spec.(keyAlgorithm := NonEmpty(resp.facts.keyAlgorithm));
    if resp.options != None {
      ko.spec := ko.spec.(options := Some(CertificateOptions(NonEmpty(resp.options.value))));
    } else {
      ko.spec := ko.spec.(options := None);
    }
    ko.spec := ko.spec.(subjectAlternativeNames := resp.facts.subjectAlternativeNames);
    ko.status := ko.status.(
      issuedAt := resp.issuedAt,
      serial := resp.serial,
      status := NonEmpty(resp.status),
      origin := NonEmpty(resp.facts.origin),
      details := resp.facts.details);
    ko.status := WithDefaults(ko.status, rm);
  }

  /** `ReadOne`: the read resource with its conditions set, or the passed one with the error recorded.
      Only the passed resource's tag list may change, and only by mirroring; `answer` and `failure`
      are what `sdkFind` said. */
  method ReadOne(rm: Identity, r: Certificate, acm: AcmCertificate, client: TS.TagClient, f: ReadFaults)
    returns (result: Certificate, error: Option<Error>, ghost answer: Option<CertificateValue>, ghost failure: Option<Error>)
    modifies r`tags
    ensures r.Value() == old(r.Value()).(tags := TagValues(r.tags))
    ensures FindAnswers(old(r.Value()), acm, client.tags, rm, f, answer, failure)
    ensures failure.Some? ==>
              && r.tags == old(r.tags)
              && result.Value() == C.UpdatedCertificate(old(r.Value()), rm, false, failure)
              && error == Some(C.ErrorAnswer(old(r.Value()), rm, failure.value))
    ensures failure.None? ==>
              && answer.Some? && error.None?
              && result.Value() == C.UpdatedCertificate(answer.value, rm, true, None)
              && OT.IsListOf(OT.Convert(old(TagValues(r.tags))) + OT.AwsPart(OT.Convert(answer.value.tags)),
                             OT.KeyOrder(old(TagValues(r.tags))), TagValues(r.tags))
    ensures fresh(result) && (forall t :: t in result.tags ==> fresh(t)) && (forall c :: c in result.conditions ==> fresh(c))
  {
    var observed, err := SdkFind(rm, r, acm, client, f);
    answer, failure := ValueOf(observed), err;
    if err != None {
      OT.MirrorAWSTags(r, null);
      var e;
      result, e := C.OnError(rm, r, err.value);
      error := Some(e);
    } else {
      result := FinishRead(rm, r, observed);
      error := None;
    }
  }

  method FinishRead(rm: Identity, r: Certificate, observed: Certificate) returns (result: Certificate)
    requires r != observed
    modifies r`tags
    ensures result.Value() == C.UpdatedCertificate(old(observed.Value()), rm, true, None)
    ensures OT.IsListOf(OT.Convert(old(TagValues(r.tags))) + OT.AwsPart(OT.Convert(old(TagValues(observed.tags)))),
                        OT.KeyOrder(old(TagValues(r.tags))), TagValues(r.tags))
    ensures fresh(result) && (forall t :: t in result.tags ==> fresh(t)) && (forall c :: c in result.conditions ==> fresh(c))
  {
    ghost var before := observed.Value();
    OT.MirrorAWSTags(r, observed);
    assert observed.Value() == before;
    result := C.OnSuccess(rm, observed);
  }

  /* ----- sdkUpdate ----- */

  /** Everything outside the cluster's resources that an update reads or changes. */
  datatype World = World(acm: AcmCertificate, tags: OT.TagMap, secrets: SecretMap)

  /** What goes wrong in an update: in the export, in either tag call, in the options call. */
  datatype UpdateFaults = UpdateFaults(exporting: ExportFaults, remove: TS.Call, add: TS.Call, options: Option<WriteFailure>)

  datatype Reply = Reply(result: Result<CertificateValue>, world: World)

  const IMPORTED := "IMPORTED"
  const ONLY_TAGS := TerminalError(Plain("only tags can be updated for an imported certificate"))

  /** A copy of the desired resource that records the issue that was read. */
  function WithIssue(desired: CertificateValue, latest: CertificateValue, rm: Identity): CertificateValue {
    desired.(status := WithDefaults(desired.status, rm).(
      issuedAt := latest.status.issuedAt, status := latest.status.status, serial := latest.status.serial))
  }

  /** A logging preference a request can carry: an empty string is not sent. */
  predicate Preferred(options: Option<CertificateOptions>) {
    options.Some? && options.value.loggingPreference.Some? && options.value.loggingPreference.value != ""
  }

  /** UpdateCertificateOptions: sets the preference; a request without one changes nothing. */
  function SetPreference(current: Option<string>, requested: Option<CertificateOptions>): Option<string> {
    if Preferred(requested) then requested.value.loggingPreference else current
  }

  /** The certificate after that call, which may set the preference and fail all the same. */
  function WithPreference(acm: AcmCertificate, requested: Option<CertificateOptions>, failure: Option<WriteFailure>): AcmCertificate {
    if Lands(failure) then acm.(options := SetPreference(acm.options, requested)) else acm
  }

  function ExportBranch(rm: Identity, desired: CertificateValue, latest: CertificateValue, w: World, f: ExportFaults): Reply {
    var e := ExportEffect(latest, w.acm, w.secrets, f);
    Reply(if e.error.Some? then Err(e.error.value) else Ok(WithIssue(desired, latest, rm)), w.(secrets := e.secrets))
  }

  function TagBranch(desired: CertificateValue, latest: CertificateValue, w: World, f: UpdateFaults): Reply {
    var sync := TS.Sync(OT.Convert(desired.tags), OT.Convert(latest.tags), w.tags, f.remove, f.add);
    Reply(if sync.error.Some? then Err(sync.error.value) else Ok(desired), w.(tags := sync.Final(w.tags)))
  }

  function OptionBranch(rm: Identity, desired: CertificateValue, latest: CertificateValue, q: Asked, w: World, failure: Option<WriteFailure>): Reply {
    if !q.beyondTags then Reply(Ok(desired), w)
    else if latest.status.origin == Some(IMPORTED) then
      Reply(if q.options then Err(ONLY_TAGS) else Ok(desired), w)
    else
      Reply(if failure.Some? then Err(failure.value.error) else Ok(WithIssue(desired, latest, rm)),
            w.(acm := WithPreference(w.acm, desired.spec.options, failure)))
  }

  /** The tags if they differ, then the options. */
  function SyncBranch(rm: Identity, desired: CertificateValue, latest: CertificateValue, q: Asked, w: World, f: UpdateFaults): Reply {
    var tagged := if q.tags then TagBranch(desired, latest, w, f) else Reply(Ok(desired), w);
    if tagged.result.Err? then tagged
    else OptionBranch(rm, desired, latest, q, tagged.world, f.options)
  }

  /** What the source dereferences is there: the key algorithm if an export gets as far as decrypting;
      the ARN, the keys and the values if tags are synchronised. */
  predicate NoPanic(desired: CertificateValue, latest: CertificateValue, q: Asked, acm: AcmCertificate, f: ExportFaults) {
    if q.firstIssue || q.renewed then Decryptable(latest.spec, acm, f)
    else q.tags ==> RecordedArn(desired.status).Some? && TS.Syncable(desired.tags) && TS.Syncable(latest.tags)
  }

  /** What `sdkUpdate` returns and what it does to the world; an export that panics counts as an error here. */
  function SdkUpdate(rm: Identity, desired: CertificateValue, latest: CertificateValue, q: Asked, w: World, f: UpdateFaults): Reply {
    if q.firstIssue || q.renewed then ExportBranch(rm, desired, latest, w, f.exporting)
    else SyncBranch(rm, desired, latest, q, w, f)
  }

  class AcmClient {
    var certificate: AcmCertificate

    constructor (certificate: AcmCertificate)
      ensures this.certificate == certificate
    {
      this.certificate := certificate;
    }

    method UpdateCertificateOptions(options: Option<CertificateOptions>, failure: Option<WriteFailure>) returns (error: Option<Error>)
      modifies this
      ensures error == ErrorOf(failure)
      ensures certificate == WithPreference(old(certificate), options, failure)
    {
      error := ErrorOf(failure);
      if Lands(failure) {
        certificate := certificate.(options := SetPreference(certificate.options, options));
      }
    }
  }

  /** The copy that records the issue. */
  method RecordIssue(rm: Identity, desired: Certificate, latest: Certificate) returns (ko: Certificate)
    ensures ko.Value() == WithIssue(desired.Value(), latest.Value(), rm)
    ensures fresh(ko) && (forall t :: t in ko.tags ==> fresh(t)) && (forall c :: c in ko.conditions ==> fresh(c))
  {
    ko := CopyWithDefaults(rm, desired);
    ghost var copied := ko.Value();
    ko.status := ko.status.(issuedAt := latest.status.issuedAt, status := latest.status.status, serial := latest.status.serial);
    assert ko.Value() == copied.(status := ko.status);
  }

  ghost function WorldOf(acm: AcmClient, client: TS.TagClient, store: SecretStore): World
    reads acm, client, store
  {
    World(acm.certificate, client.tags, store.entries)
  }

  /* Each method below is given, as `reply`, what the function above says of its call. */

  /** The reply as the method's two results. */
  ghost predicate Answers(reply: Reply, updated: Option<CertificateValue>, error: Option<Error>) {
    match reply.result
    case Ok(value) => updated == Some(value) && error.None?
    case Err(e) => updated.None? && error == Some(e)
  }

  /** The export branch, which the source has twice. */
  method ExportAndRecord(rm: Identity, desired: Certificate, latest: Certificate,
                         acm: AcmClient, ghost client: TS.TagClient, store: SecretStore, f: ExportFaults, ghost reply: Reply)
    returns (updated: Certificate?, error: Option<Error>)
    requires Decryptable(latest.spec, acm.certificate, f)
    requires reply == ExportBranch(rm, desired.Value(), latest.Value(), WorldOf(acm, client, store), f)
    modifies store
    ensures Answers(reply, ValueOf(updated), error) && WorldOf(acm, client, store) == reply.world
    ensures updated != null ==>
              fresh(updated) && (forall t :: t in updated.tags ==> fresh(t)) && (forall c :: c in updated.conditions ==> fresh(c))
  {
    error := ExportCertificate(latest, acm.certificate, store, f);
    if error != None {
      return null, error;
    }
    updated := RecordIssue(rm, desired, latest);
  }

  method UpdateTags(desired: Certificate, latest: Certificate, ghost acm: AcmClient, client: TS.TagClient, ghost store: SecretStore, f: UpdateFaults, ghost reply: Reply)
    returns (error: Option<Error>)
    requires TS.Syncable(TagValues(desired.tags)) && TS.Syncable(TagValues(latest.tags))
    requires reply == TagBranch(desired.Value(), latest.Value(), WorldOf(acm, client, store), f)
    modifies client
    ensures WorldOf(acm, client, store) == reply.world
    ensures error == if reply.result.Err? then Some(reply.result.error) else None
  {
    error := TS.SyncTags(client, desired.tags, latest.tags, f.remove, f.add);
  }

  /** Neither resource changes; what is returned is the desired resource itself or a copy of it. */
  method SdkUpdateCertificate(rm: Identity, desired: Certificate, latest: Certificate, delta: ResourceDelta,
                              acm: AcmClient, client: TS.TagClient, store: SecretStore, f: UpdateFaults, ghost reply: Reply)
    returns (updated: Certificate?, error: Option<Error>)
    requires NoPanic(desired.Value(), latest.Value(), Ask(delta.differences), acm.certificate, f.exporting)
    requires reply == SdkUpdate(rm, desired.Value(), latest.Value(), Ask(delta.differences), WorldOf(acm, client, store), f)
    modifies acm, client, store
    ensures Answers(reply, ValueOf(updated), error) && WorldOf(acm, client, store) == reply.world
    ensures updated != null && updated != desired ==>
              fresh(updated) && (forall t :: t in updated.tags ==> fresh(t)) && (forall c :: c in updated.conditions ==> fresh(c))
  {
    if At(delta.differences, ISSUED_AT) {
      updated, error := ExportAndRecord(rm, desired, latest, acm, client, store, f.exporting, reply);
      return;
    }
    if At(delta.differences, SERIAL) {
      updated, error := ExportAndRecord(rm, desired, latest, acm, client, store, f.exporting, reply);
      return;
    }
    updated, error := SyncTagsAndOptions(rm, desired, latest, delta, acm, client, store, f, reply);
  }

  /** The part of `sdkUpdate` after the two export branches. */
  method SyncTagsAndOptions(rm: Identity, desired: Certificate, latest: Certificate, delta: ResourceDelta,
                            acm: AcmClient, client: TS.TagClient, ghost store: SecretStore, f: UpdateFaults, ghost reply: Reply)
    returns (updated: Certificate?, error: Option<Error>)
    requires At(delta.differences, TAGS) ==>
               RecordedArn(desired.status).Some? && TS.Syncable(TagValues(desired.tags)) && TS.Syncable(TagValues(latest.tags))
    requires reply == SyncBranch(rm, desired.Value(), latest.Value(), Ask(delta.differences), WorldOf(acm, client, store), f)
    modifies acm, client
    ensures Answers(reply, ValueOf(updated), error) && WorldOf(acm, client, store) == reply.world
    ensures updated != null && updated != desired ==>
              fresh(updated) && (forall t :: t in updated.tags ==> fresh(t)) && (forall c :: c in updated.conditions ==> fresh(c))
  {
    ghost var d, l, w := desired.Value(), latest.Value(), WorldOf(acm, client, store);
    if At(delta.differences, TAGS) {
      ghost var tagged := TagBranch(d, l, w, f);
      error := UpdateTags(desired, latest, acm, client, store, f, tagged);
      if error != None {
        return null, error;
      }
      w := tagged.world;
    }
    assert desired.Value() == d && latest.Value() == l && WorldOf(acm, client, store) == w;
    updated, error := UpdateOptions(rm, desired, latest, delta, acm, client, store, f.options, reply);
  }

  /** The part of `sdkUpdate` after the tags. */
  method UpdateOptions(rm: Identity, desired: Certificate, latest: Certificate, delta: ResourceDelta,
                       acm: AcmClient, ghost client: TS.TagClient, ghost store: SecretStore, failure: Option<WriteFailure>, ghost reply: Reply)
    returns (updated: Certificate?, error: Option<Error>)
    requires reply == OptionBranch(rm, desired.Value(), latest.Value(), Ask(delta.differences), WorldOf(acm, client, store), failure)
    modifies acm
    ensures Answers(reply, ValueOf(updated), error) && WorldOf(acm, client, store) == reply.world
    ensures updated != null && updated != desired ==>
              fresh(updated) && (forall t :: t in updated.tags ==> fresh(t)) && (forall c :: c in updated.conditions ==> fresh(c))
  {
    if !Except(delta.differences, TAGS) {
      return desired, None;
    }
    if latest.status.origin != None && latest.status.origin.value == IMPORTED {
      if At(delta.differences, OPTIONS) {
        return null, Some(ONLY_TAGS);
      }
      return desired, None;
    }
    error := acm.UpdateCertificateOptions(desired.spec.options, failure);
    if error != None {
      return null, error;
    }
    updated := RecordIssue(rm, desired, latest);
  }

  /* ----- Update ----- */

  /** What `Update` returns: on an error it is the *latest* resource that carries it, recorded issue included. */
  function UpdateReply(rm: Identity, latest: CertificateValue, reply: Reply): CertificateValue {
    match reply.result
    case Ok(updated) => C.UpdatedCertificate(updated, rm, true, None)
    case Err(e) => C.UpdatedCertificate(latest, rm, false, Some(e))
  }

  ghost function UpdateError(rm: Identity, latest: CertificateValue, reply: Reply): Option<Error> {
    if reply.result.Ok? then None else Some(C.ErrorAnswer(latest, rm, reply.result.error))
  }

  method Update(rm: Identity, desired: Certificate, latest: Certificate, delta: ResourceDelta,
                acm: AcmClient, client: TS.TagClient, store: SecretStore, f: UpdateFaults, ghost reply: Reply)
    returns (result: Certificate, error: Option<Error>)
    requires NoPanic(desired.Value(), latest.Value(), Ask(delta.differences), acm.certificate, f.exporting)
    requires reply == SdkUpdate(rm, desired.Value(), latest.Value(), Ask(delta.differences), WorldOf(acm, client, store), f)
    modifies acm, client, store
    ensures WorldOf(acm, client, store) == reply.world
    ensures result.Value() == UpdateReply(rm, latest.Value(), reply)
    ensures error == UpdateError(rm, latest.Value(), reply)
    ensures fresh(result) && (forall t :: t in result.tags ==> fresh(t)) && (forall c :: c in result.conditions ==> fresh(c))
  {
    var updated, err := SdkUpdateCertificate(rm, desired, latest, delta, acm, client, store, f, reply);
    result, error := FinishUpdate(rm, latest, updated, err, reply);
  }

  /** The end of `Update`: which resource is returned, with which conditions. */
  method FinishUpdate(rm: Identity, latest: Certificate, updated: Certificate?, err: Option<Error>, ghost reply: Reply)
    returns (result: Certificate, error: Option<Error>)
    requires Answers(reply, ValueOf(updated), err)
    ensures result.Value() == UpdateReply(rm, latest.Value(), reply)
    ensures error == UpdateError(rm, latest.Value(), reply)
    ensures fresh(result) && (forall t :: t in result.tags ==> fresh(t)) && (forall c :: c in result.conditions ==> fresh(c))
  {
    if err != None {
      var e;
      result, e := C.OnError(rm, latest, err.value);
      error := Some(e);
    } else {
      var ok := C.OnSuccess(rm, updated);
      result, error := ok, None;
    }
  }
}
