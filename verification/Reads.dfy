/** What a read overwrites and keeps, and what comparing against it can and cannot report. */
module Reads {
  import opened Values
  import opened Delta
  import opened Export
  import opened Reconcile
  import opened LateInitialization
  import OT = OrderedTags
  import TS = TagSync
  import TP = TagPipeline
  import Creation
  import Requests

  /* ----- the paths a comparison reports ----- */

  function NamesOf(spec: Spec): seq<string> {
    Names(spec.subjectAlternativeNames)
  }

  function Names(list: Option<seq<string>>): seq<string> {
    match list
    case None => []
    case Some(names) => names
  }

  /** Some key's last value is not the same in both lists. */
  ghost predicate ValuesDiffer(a: seq<TagValue>, b: seq<TagValue>) {
    exists k :: TP.LastValue(a, k) != TP.LastValue(b, k)
  }

  /** What it means for the two resources to differ at a path, spelled out. */
  ghost predicate DiffersAt(a: CertificateValue, b: CertificateValue, same: ListEquality, path: Path) {
    || (path == ISSUED_AT && a.spec.exportTo.Some? && a.status.issuedAt.None? && b.status.status == Some("ISSUED"))
    || (path == SERIAL && a.spec.exportTo.Some? && a.status.serial.Some? && b.status.serial.Some? && a.status.serial != b.status.serial)
    || (path == Dot(SPEC, KeyAlgorithm) && a.spec.keyAlgorithm.Some? && b.spec.keyAlgorithm.Some? &&
        !SameAlgorithm(a.spec.keyAlgorithm.value, b.spec.keyAlgorithm.value))
    || (path == Dot(SPEC, CertificateARN) && a.spec.certificateARN != b.spec.certificateARN)
    || (path == Dot(SPEC, CertificateAuthorityARN) && a.spec.certificateAuthorityARN != b.spec.certificateAuthorityARN)
    || (path == Dot(SPEC, CertificateAuthorityRef) && a.spec.certificateAuthorityRef != b.spec.certificateAuthorityRef)
    || (path == Dot(SPEC, DomainName) && a.spec.domainName != b.spec.domainName)
    || (path == OPTIONS && (a.spec.options == None) != (b.spec.options == None))
    || (path == PREFERENCE && a.spec.options.Some? && b.spec.options.Some? && a.spec.options != b.spec.options)
    || (path == Dot(SPEC, SubjectAlternativeNames) &&
        (|NamesOf(a.spec)| != |NamesOf(b.spec)| || (NamesOf(a.spec) != [] && !same(NamesOf(a.spec), NamesOf(b.spec)))))
    || (path == TAGS && ValuesDiffer(a.tags, b.tags))
  }

  lemma AlgorithmsDiffer(a: Spec, b: Spec)
    ensures KeyAlgorithmDiffers(a, b) <==>
            a.keyAlgorithm.Some? && b.keyAlgorithm.Some? && !SameAlgorithm(a.keyAlgorithm.value, b.keyAlgorithm.value)
  {
    if a.keyAlgorithm.Some? && b.keyAlgorithm.Some? {
      KeyAlgorithmsModuloDashes(a.keyAlgorithm.value, b.keyAlgorithm.value);
    }
  }

  lemma MapsDiffer(a: seq<TagValue>, b: seq<TagValue>)
    ensures TagsDiffer(a, b) <==> ValuesDiffer(a, b)
  {
    if exists k :: TP.LastValue(a, k) != TP.LastValue(b, k) {
      var k :| TP.LastValue(a, k) != TP.LastValue(b, k);
      TP.LastWins(a, k);
      TP.LastWins(b, k);
    } else {
      forall k
        ensures k in OT.Convert(a) <==> k in OT.Convert(b)
        ensures k in OT.Convert(a) && k in OT.Convert(b) ==> OT.Convert(a)[k] == OT.Convert(b)[k]
      {
        TP.LastWins(a, k);
        TP.LastWins(b, k);
        assert TP.LastValue(a, k) == TP.LastValue(b, k);
      }
      assert OT.Convert(a) == OT.Convert(b);
    }
  }

  lemma InOneMore(d: seq<Path>, differs: bool, q: Path, path: Path)
    ensures path in d + When(differs, q) <==> path in d || (differs && path == q)
  {
  }

  lemma InFields(d: seq<Path>, a: Spec, b: Spec, path: Path)
    ensures path in AddFields(d, a, b) <==>
            || path in d
            || (path == Dot(SPEC, KeyAlgorithm) && KeyAlgorithmDiffers(a, b))
            || (path == Dot(SPEC, CertificateARN) && a.certificateARN != b.certificateARN)
            || (path == Dot(SPEC, CertificateAuthorityARN) && a.certificateAuthorityARN != b.certificateAuthorityARN)
            || (path == Dot(SPEC, CertificateAuthorityRef) && a.certificateAuthorityRef != b.certificateAuthorityRef)
            || (path == Dot(SPEC, DomainName) && a.domainName != b.domainName)
  {
  }

  /** The same from the predicates the comparison is made of. */
  lemma InDifferences(a: CertificateValue, b: CertificateValue, same: ListEquality, path: Path)
    ensures path in Differences(a, b, same) <==>
            || (path == ISSUED_AT && FirstIssue(a, b))
            || (path == SERIAL && Renewed(a, b))
            || path in AddFields([], a.spec, b.spec)
            || (path == OPTIONS && a.spec.options.Some? != b.spec.options.Some?)
            || (path == PREFERENCE && PreferenceDiffers(a.spec.options, b.spec.options))
            || (path == Dot(SPEC, SubjectAlternativeNames) && NamesDiffer(a.spec, b.spec, same))
            || (path == TAGS && TagsDiffer(a.tags, b.tags))
  {
    var i := AddIssues([], a, b);
    var f := AddFields(i, a.spec, b.spec);
    var o := AddOptions(f, a.spec.options, b.spec.options);
    var n := NamesDiffer(a.spec, b.spec, same);
    var nil := a.spec.options.Some? != b.spec.options.Some?;
    InOneMore([], FirstIssue(a, b), ISSUED_AT, path);
    InOneMore([] + When(FirstIssue(a, b), ISSUED_AT), Renewed(a, b), SERIAL, path);
    InFields(i, a.spec, b.spec, path);
    InFields([], a.spec, b.spec, path);
    InOneMore(f, nil, OPTIONS, path);
    InOneMore(f + When(nil, OPTIONS), PreferenceDiffers(a.spec.options, b.spec.options), PREFERENCE, path);
    InOneMore(o, n, Dot(SPEC, SubjectAlternativeNames), path);
    InOneMore(o + When(n, Dot(SPEC, SubjectAlternativeNames)), TagsDiffer(a.tags, b.tags), TAGS, path);
  }

  /** A comparison reports each path exactly when the resources differ there, and no other path. */
  lemma ReportedExactly(a: CertificateValue, b: CertificateValue, same: ListEquality, path: Path)
    ensures path in Differences(a, b, same) <==> DiffersAt(a, b, same, path)
  {
    InDifferences(a, b, same, path);
    InFields([], a.spec, b.spec, path);
    if path == TAGS {
      MapsDiffer(a.tags, b.tags);
    } else if path == Dot(SPEC, KeyAlgorithm) {
      AlgorithmsDiffer(a.spec, b.spec);
    }
  }

  /** With a comparison of lists that relates no two of different length and relates [] to itself, the
      names are reported exactly when it tells them apart, nil counting as []. */
  lemma NamesReported(a: CertificateValue, b: CertificateValue, same: ListEquality)
    requires same([], []) && forall m, n :: same(m, n) ==> |m| == |n|
    ensures Dot(SPEC, SubjectAlternativeNames) in Differences(a, b, same) <==> !same(NamesOf(a.spec), NamesOf(b.spec))
  {
    ReportedExactly(a, b, same, Dot(SPEC, SubjectAlternativeNames));
  }

  /** A resource compared with itself: nothing is reported but an issue time that is missing while the
      certificate is ISSUED and exported. */
  lemma SelfComparison(c: CertificateValue, same: ListEquality)
    requires Reflexive(same)
    ensures Differences(c, c, same) == if FirstIssue(c, c) then [ISSUED_AT] else []
  {
  }

  /** The delta reports the tags exactly when synchronising them makes a call. */
  lemma TagsReportedWhenSynced(a: CertificateValue, b: CertificateValue, same: ListEquality, backend: OT.TagMap, remove: TS.Call, add: TS.Call)
    ensures At(Differences(a, b, same), TAGS) <==>
            TS.Sync(OT.Convert(a.tags), OT.Convert(b.tags), backend, remove, add).trace != []
  {
    DeltaMeaning(a, b, same);
    TS.CompareActAgree(OT.Convert(a.tags), OT.Convert(b.tags), backend, remove, add);
  }

  /* ----- what a read overwrites and keeps ----- */

  /** The metadata a read of `r` keeps: an ARN the response does not repeat, and the recorded region
      and owner, filled in when they are missing. */
  function KeptMetadata(arn: Option<string>, r: Status, rm: Identity): Metadata {
    WithDefaults(r, rm).metadata.value.(arn := if arn.Some? then arn else RecordedArn(r))
  }

  /** `c`, read from `resp`, with everything a read does not track taken from `r`. */
  function WithUntracked(c: CertificateValue, r: CertificateValue, resp: DescribeOutput, rm: Identity): CertificateValue {
    c.(namespace := r.namespace,
       conditions := r.conditions,
       status := c.status.(metadata := Some(KeptMetadata(resp.arn, r.status, rm))),
       spec := c.spec.(
         certificate := r.spec.certificate,
         certificateARN := r.spec.certificateARN,
         certificateAuthorityRef := r.spec.certificateAuthorityRef,
         certificateChain := r.spec.certificateChain,
         exportTo := r.spec.exportTo,
         privateKey := r.spec.privateKey))
  }

  /** Two reads of the same response agree on everything tracked, whatever resources were passed in, and
      keep the rest of what was passed in. */
  lemma ReadsAgree(r: CertificateValue, q: CertificateValue, resp: DescribeOutput, tags: seq<TagValue>, rm: Identity)
    ensures WithUntracked(Found(r, resp, tags, rm), q, resp, rm) == Found(q, resp, tags, rm)
    ensures WithUntracked(Found(r, resp, tags, rm), r, resp, rm) == Found(r, resp, tags, rm)
  {
  }

  /** Reading what was read changes nothing. */
  lemma ReadTwice(r: CertificateValue, resp: DescribeOutput, tags: seq<TagValue>, rm: Identity)
    ensures Found(Found(r, resp, tags, rm), resp, tags, rm) == Found(r, resp, tags, rm)
  {
  }

  /** A resource compared with its own read never differs in its certificate ARN or its authority
      reference, and never below Spec.Status unless it is exported. */
  lemma OwnReadNeverReports(r: CertificateValue, resp: DescribeOutput, tags: seq<TagValue>, rm: Identity, same: ListEquality)
    ensures var d := Differences(r, Found(r, resp, tags, rm), same);
            && Dot(SPEC, CertificateARN) !in d && Dot(SPEC, CertificateAuthorityRef) !in d
            && (r.spec.exportTo.None? ==> ISSUED_AT !in d && SERIAL !in d)
  {
    var found := Found(r, resp, tags, rm);
    ReportedExactly(r, found, same, Dot(SPEC, CertificateARN));
    ReportedExactly(r, found, same, Dot(SPEC, CertificateAuthorityRef));
    ReportedExactly(r, found, same, ISSUED_AT);
    ReportedExactly(r, found, same, SERIAL);
  }

  /* ----- late initialisation against the comparison ----- */

  /** After late initialisation, the paths reported against the observation are exactly those that
      were reported before it, without the fields it has filled in. */
  lemma FilledNeverReported(c: CertificateValue, acm: AcmCertificate, tags: seq<TagValue>, rm: Identity, same: ListEquality, path: Path)
    requires Reflexive(same)
    ensures var observed := Found(c, Describe(acm), tags, rm);
            var filled := c.(spec := Initialized(c.spec, acm));
            path in Differences(filled, observed, same) <==>
              && path in Differences(c, observed, same)
              && !(path == OPTIONS && c.spec.options.None?)
              && !(path == Dot(SPEC, SubjectAlternativeNames) && c.spec.subjectAlternativeNames.None?)
  {
    var observed := Found(c, Describe(acm), tags, rm);
    var filled := c.(spec := Initialized(c.spec, acm));
    ReportedExactly(c, observed, same, path);
    ReportedExactly(filled, observed, same, path);
  }

  /* ----- from the request to the comparison ----- */

  /** What ACM holds after a request it has accepted: not issued yet; everything asked for as asked,
      key algorithms up to dashes and underscores; its own choice where nothing was asked. The
      alternative names it reports are its own affair. */
  predicate Honours(acm: AcmCertificate, tags: OT.TagMap, input: Requests.RequestInput) {
    && acm.issues == [] && acm.status == "PENDING_VALIDATION"
    && acm.facts.certificateAuthorityARN == input.certificateAuthorityARN
    && acm.facts.domainName == input.domainName
    && acm.facts.keyAlgorithm != ""
    && (input.keyAlgorithm != "" ==> Normalize(acm.facts.keyAlgorithm) == Normalize(input.keyAlgorithm))
    && acm.options.Some? && acm.options.value != ""
    && (input.options.Some? && input.options.value.loggingPreference != "" ==> acm.options == Some(input.options.value.loggingPreference))
    && tags == OT.Convert(input.tags)
  }

  /** The enumerations of the Spec are left out or given a value, and so is the logging preference. */
  predicate FullyGiven(spec: Spec) {
    && spec.keyAlgorithm != Some("")
    && (spec.options.Some? ==> spec.options.value.loggingPreference.Some? && spec.options.value.loggingPreference != Some(""))
  }

  /** Create, read, late initialisation, comparison: a request ACM has honoured leaves nothing to
      update exactly when its enumerations were fully given and no names it gave are reported otherwise. */
  lemma RequestThenRead(desired: CertificateValue, acm: AcmCertificate, backend: OT.TagMap, listing: seq<TagValue>, rm: Identity, same: ListEquality)
    requires Reflexive(same) && OT.Enumerates(listing, backend)
    requires Honours(acm, backend, Requests.Payload(desired.spec, desired.tags))
    ensures var created := Creation.WithArn(desired, Some(acm.arn), rm);
            var observed := Found(created, Describe(acm), listing, rm);
            var filled := created.(spec := Initialized(created.spec, acm));
            Differences(filled, observed, same) == [] <==>
              && FullyGiven(desired.spec)
              && (desired.spec.subjectAlternativeNames.Some? ==>
                    var asked, reported := desired.spec.subjectAlternativeNames.value, Names(acm.facts.subjectAlternativeNames);
                    |asked| == |reported| && (asked == [] || same(asked, reported)))
  {
    var created := Creation.WithArn(desired, Some(acm.arn), rm);
    var observed := Found(created, Describe(acm), listing, rm);
    var filled := created.(spec := Initialized(created.spec, acm));
    TP.ConvertEnumeration(listing, backend);
    DeltaMeaning(filled, observed, same);
    assert |Normalize(acm.facts.keyAlgorithm)| > 0;
  }
}
