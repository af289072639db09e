/** The comparison of delta.go and the two hooks it starts with. */
module Delta {
  import opened Values
  import opened Objects
  import OT = OrderedTags

  /** The names between the dots of a path. */
  datatype Segment =
    | SpecSegment | StatusSegment | IssuedAt | Serial
    | CertificateARN | CertificateAuthorityARN | CertificateAuthorityRef
    | DomainName | KeyAlgorithm | Options | LoggingPreference | SubjectAlternativeNames | Tags

  /** A dotted path; `Whole` is the empty one. */
  datatype Path = Whole | Dot(parent: Path, name: Segment)

  /** The dotted-prefix match: `q` is the path `p` or below it. */
  predicate Under(p: Path, q: Path) {
    p == q || (q.Dot? && Under(p, q.parent))
  }

  const SPEC: Path := Dot(Whole, SpecSegment)
  const STATUS: Path := Dot(SPEC, StatusSegment)
  const ISSUED_AT: Path := Dot(STATUS, IssuedAt)
  const SERIAL: Path := Dot(STATUS, Serial)
  const TAGS: Path := Dot(SPEC, Tags)
  const OPTIONS: Path := Dot(SPEC, Options)
  const PREFERENCE: Path := Dot(OPTIONS, LoggingPreference)

  /** `DifferentAt`: some difference is at the path or below it. */
  predicate At(differences: seq<Path>, path: Path) {
    exists i :: 0 <= i < |differences| && Under(path, differences[i])
  }

  /** `DifferentExcept`: some difference is neither at the path nor below it. */
  predicate Except(differences: seq<Path>, path: Path) {
    exists i :: 0 <= i < |differences| && !Under(path, differences[i])
  }

  /** The comparison of string lists the runtime provides; any relation will do for what follows. */
  type ListEquality = (seq<string>, seq<string>) -> bool

  /** A list comparison that finds a list equal to itself. */
  ghost predicate Reflexive(same: ListEquality) {
    forall names :: same(names, names)
  }

  class ResourceDelta {
    var differences: seq<Path>

    constructor ()
      ensures differences == []
    {
      differences := [];
    }

    method Add(path: Path)
      modifies this
      ensures differences == old(differences) + [path]
    {
      differences := differences + [path];
    }
  }

  /* ----- what is compared ----- */

  /** `normalizeKeyAlgorithm`: every dash becomes an underscore. */
  function Normalize(algorithm: string): (r: string)
    ensures |r| == |algorithm|
  {
    seq(|algorithm|, i requires 0 <= i < |algorithm| => if algorithm[i] == '-' then '_' else algorithm[i])
  }

  function When(c: bool, path: Path): seq<Path> {
    if c then [path] else []
  }

  /** The certificate is issued and the resource has not recorded an issue time. */
  predicate FirstIssue(a: CertificateValue, b: CertificateValue) {
    a.spec.exportTo.Some? && a.status.issuedAt.None? && b.status.status == Some("ISSUED")
  }

  /** The certificate's serial is not the one the resource has recorded. */
  predicate Renewed(a: CertificateValue, b: CertificateValue) {
    a.spec.exportTo.Some? && a.status.serial.Some? && b.status.serial.Some? && a.status.serial != b.status.serial
  }

  predicate ExportPending(a: CertificateValue, b: CertificateValue) {
    FirstIssue(a, b) || Renewed(a, b)
  }

  predicate KeyAlgorithmDiffers(a: Spec, b: Spec) {
    a.keyAlgorithm.Some? && b.keyAlgorithm.Some? && Normalize(a.keyAlgorithm.value) != Normalize(b.keyAlgorithm.value)
  }

  predicate NamesDiffer(a: Spec, b: Spec, same: ListEquality) {
    var m, n := ListOf(a.subjectAlternativeNames), ListOf(b.subjectAlternativeNames);
    |m| != |n| || (|m| > 0 && !same(m, n))
  }

  function ListOf(names: Option<seq<string>>): seq<string> {
    if names.Some? then names.value else []
  }

  predicate TagsDiffer(a: seq<TagValue>, b: seq<TagValue>) {
    OT.Convert(a) != OT.Convert(b)
  }

  predicate PreferenceDiffers(a: Option<CertificateOptions>, b: Option<CertificateOptions>) {
    a.Some? && b.Some? && a.value.loggingPreference != b.value.loggingPreference
  }

  function AddIssues(d: seq<Path>, a: CertificateValue, b: CertificateValue): seq<Path> {
    d + When(FirstIssue(a, b), ISSUED_AT) + When(Renewed(a, b), SERIAL)
  }

  function AddFields(d: seq<Path>, a: Spec, b: Spec): seq<Path> {
    d + When(KeyAlgorithmDiffers(a, b), Dot(SPEC, KeyAlgorithm))
      + When(a.certificateARN != b.certificateARN, Dot(SPEC, CertificateARN))
      + When(a.certificateAuthorityARN != b.certificateAuthorityARN, Dot(SPEC, CertificateAuthorityARN))
      + When(a.certificateAuthorityRef != b.certificateAuthorityRef, Dot(SPEC, CertificateAuthorityRef))
      + When(a.domainName != b.domainName, Dot(SPEC, DomainName))
  }

  function AddOptions(d: seq<Path>, a: Option<CertificateOptions>, b: Option<CertificateOptions>): seq<Path> {
    d + When(a.Some? != b.Some?, OPTIONS) + When(PreferenceDiffers(a, b), PREFERENCE)
  }

  function AddLists(d: seq<Path>, a: CertificateValue, b: CertificateValue, same: ListEquality): seq<Path> {
    d + When(NamesDiffer(a.spec, b.spec, same), Dot(SPEC, SubjectAlternativeNames)) + When(TagsDiffer(a.tags, b.tags), TAGS)
  }

  /** The paths that differ, in the order they are added. */
  function Differences(a: CertificateValue, b: CertificateValue, same: ListEquality): seq<Path> {
    AddLists(AddOptions(AddFields(AddIssues([], a, b), a.spec, b.spec), a.spec.options, b.spec.options), a, b, same)
  }

  /* ----- the imperative code ----- */

  method CompareCertificateIssuedAt(delta: ResourceDelta, a: Certificate, b: Certificate)
    modifies delta
    ensures delta.differences == AddIssues(old(delta.differences), a.Value(), b.Value())
  {
    if a.spec.exportTo != None {
      if a.status.issuedAt == None && b.status.status != None && b.status.status.value == "ISSUED" {
        delta.Add(ISSUED_AT);
      }
      if a.status.serial != None && b.status.serial != None && a.status.serial.value != b.status.serial.value {
        delta.Add(SERIAL);
      }
    }
  }

  method CompareKeyAlgorithm(delta: ResourceDelta, a: Spec, b: Spec)
    modifies delta
    ensures delta.differences == old(delta.differences) + When(KeyAlgorithmDiffers(a, b), Dot(SPEC, KeyAlgorithm))
  {
    if a.keyAlgorithm != None && b.keyAlgorithm != None {
      var normalizedA := Normalize(a.keyAlgorithm.value);
      var normalizedB := Normalize(b.keyAlgorithm.value);
      if normalizedA != normalizedB {
        delta.Add(Dot(SPEC, KeyAlgorithm));
      }
    }
  }

  /** One string pointer against another: a nil difference, or different strings. */
  method ComparePointers(delta: ResourceDelta, a: Option<string>, b: Option<string>, path: Path)
    modifies delta
    ensures delta.differences == old(delta.differences) + When(a != b, path)
  {
    if a.None? != b.None? {
      delta.Add(path);
    } else if a != None && b != None {
      if a.value != b.value {
        delta.Add(path);
      }
    }
  }

  method CompareFields(delta: ResourceDelta, a: Spec, b: Spec)
    modifies delta
    ensures delta.differences == AddFields(old(delta.differences), a, b)
  {
    CompareKeyAlgorithm(delta, a, b);
    ComparePointers(delta, a.certificateARN, b.certificateARN, Dot(SPEC, CertificateARN));
    ComparePointers(delta, a.certificateAuthorityARN, b.certificateAuthorityARN, Dot(SPEC, CertificateAuthorityARN));
    if a.certificateAuthorityRef != b.certificateAuthorityRef {
      delta.Add(Dot(SPEC, CertificateAuthorityRef));
    }
    ComparePointers(delta, a.domainName, b.domainName, Dot(SPEC, DomainName));
  }

  method CompareOptions(delta: ResourceDelta, a: Option<CertificateOptions>, b: Option<CertificateOptions>)
    modifies delta
    ensures delta.differences == AddOptions(old(delta.differences), a, b)
  {
    if a.None? != b.None? {
      delta.Add(OPTIONS);
    } else if a != None && b != None {
      ComparePointers(delta, a.value.loggingPreference, b.value.loggingPreference, PREFERENCE);
    }
  }

  method CompareNames(delta: ResourceDelta, a: Spec, b: Spec, same: ListEquality)
    modifies delta
    ensures delta.differences == old(delta.differences) + When(NamesDiffer(a, b, same), Dot(SPEC, SubjectAlternativeNames))
  {
    var m, n := ListOf(a.subjectAlternativeNames), ListOf(b.subjectAlternativeNames);
    if |m| != |n| {
      delta.Add(Dot(SPEC, SubjectAlternativeNames));
    } else if |m| > 0 {
      if !same(m, n) {
        delta.Add(Dot(SPEC, SubjectAlternativeNames));
      }
    }
  }

  method CompareTags(delta: ResourceDelta, a: seq<Tag>, b: seq<Tag>)
    modifies delta
    ensures delta.differences == old(delta.differences) + When(TagsDiffer(TagValues(a), TagValues(b)), TAGS)
  {
    var desiredACKTags, _ := OT.ConvertToOrderedACKTags(a);
    var latestACKTags, _ := OT.ConvertToOrderedACKTags(b);
    if desiredACKTags.entries != latestACKTags.entries {
      delta.Add(TAGS);
    }
  }

  method NewResourceDelta(a: Certificate?, b: Certificate?, same: ListEquality) returns (delta: ResourceDelta)
    requires a != null || b != null
    ensures fresh(delta)
    ensures a == null || b == null ==> delta.differences == [Whole]
    ensures a != null && b != null ==> delta.differences == Differences(a.Value(), b.Value(), same)
  {
    delta := new ResourceDelta();
    if (a == null && b != null) || (a != null && b == null) {
      delta.Add(Whole);
      return;
    }
    CompareCertificateIssuedAt(delta, a, b);
    CompareFields(delta, a.spec, b.spec);
    CompareOptions(delta, a.spec.options, b.spec.options);
    CompareNames(delta, a.spec, b.spec, same);
    CompareTags(delta, a.tags, b.tags);
  }

  /* ----- what a list of differences says ----- */

  lemma AtWhen(differs: bool, q: Path, path: Path)
    ensures At(When(differs, q), path) <==> differs && Under(path, q)
    ensures Except(When(differs, q), path) <==> differs && !(Under(path, q))
  {
    if differs {
      assert When(differs, q)[0] == q;
    }
  }

  /** One more check at the end of a list of differences. */
  lemma AtOneMore(d: seq<Path>, differs: bool, q: Path, path: Path)
    ensures At(d + When(differs, q), path) <==> At(d, path) || (differs && Under(path, q))
    ensures Except(d + When(differs, q), path) <==> Except(d, path) || (differs && !Under(path, q))
  {
    AtAppend(d, When(differs, q), path);
    AtWhen(differs, q, path);
  }

  lemma AtAppend(p: seq<Path>, q: seq<Path>, path: Path)
    ensures At(p + q, path) <==> At(p, path) || At(q, path)
    ensures Except(p + q, path) <==> Except(p, path) || Except(q, path)
  {
    var r := p + q;
    assert forall i :: 0 <= i < |p| ==> r[i] == p[i];
    assert forall i :: 0 <= i < |q| ==> r[|p| + i] == q[i];
  }

  /** The fields compared by paths of their own, apart from names, tags, options and the export triggers. */
  predicate FieldsDiffer(a: Spec, b: Spec) {
    || KeyAlgorithmDiffers(a, b)
    || a.certificateARN != b.certificateARN
    || a.certificateAuthorityARN != b.certificateAuthorityARN
    || a.certificateAuthorityRef != b.certificateAuthorityRef
    || a.domainName != b.domainName
  }

  lemma AtFields(d: seq<Path>, a: Spec, b: Spec, path: Path)
    requires path in {ISSUED_AT, SERIAL, TAGS, OPTIONS, SPEC}
    ensures At(AddFields(d, a, b), path) <==> At(d, path) || (path == SPEC && FieldsDiffer(a, b))
    ensures Except(AddFields(d, a, b), path) <==> Except(d, path) || (path != SPEC && FieldsDiffer(a, b))
  {
    var d1 := d + When(KeyAlgorithmDiffers(a, b), Dot(SPEC, KeyAlgorithm));
    var d2 := d1 + When(a.certificateARN != b.certificateARN, Dot(SPEC, CertificateARN));
    var d3 := d2 + When(a.certificateAuthorityARN != b.certificateAuthorityARN, Dot(SPEC, CertificateAuthorityARN));
    var d4 := d3 + When(a.certificateAuthorityRef != b.certificateAuthorityRef, Dot(SPEC, CertificateAuthorityRef));
    AtOneMore(d, KeyAlgorithmDiffers(a, b), Dot(SPEC, KeyAlgorithm), path);
    AtOneMore(d1, a.certificateARN != b.certificateARN, Dot(SPEC, CertificateARN), path);
    AtOneMore(d2, a.certificateAuthorityARN != b.certificateAuthorityARN, Dot(SPEC, CertificateAuthorityARN), path);
    AtOneMore(d3, a.certificateAuthorityRef != b.certificateAuthorityRef, Dot(SPEC, CertificateAuthorityRef), path);
    AtOneMore(d4, a.domainName != b.domainName, Dot(SPEC, DomainName), path);
  }

  /** What is neither an export trigger nor something `sdkUpdate` can change. */
  predicate OthersDiffer(a: CertificateValue, b: CertificateValue, same: ListEquality) {
    FieldsDiffer(a.spec, b.spec) || NamesDiffer(a.spec, b.spec, same)
  }

  lemma AtDifferences(a: CertificateValue, b: CertificateValue, same: ListEquality, path: Path)
    requires path in {ISSUED_AT, SERIAL, TAGS, OPTIONS, SPEC}
    ensures At(Differences(a, b, same), path) <==>
            || (FirstIssue(a, b) && Under(path, ISSUED_AT)) || (Renewed(a, b) && Under(path, SERIAL))
            || (path == SPEC && OthersDiffer(a, b, same))
            || (a.spec.options != b.spec.options && Under(path, OPTIONS))
            || (TagsDiffer(a.tags, b.tags) && Under(path, TAGS))
    ensures Except(Differences(a, b, same), path) <==>
            || (FirstIssue(a, b) && !(Under(path, ISSUED_AT))) || (Renewed(a, b) && !(Under(path, SERIAL)))
            || (path != SPEC && OthersDiffer(a, b, same))
            || (a.spec.options != b.spec.options && !(Under(path, OPTIONS)))
            || (TagsDiffer(a.tags, b.tags) && !(Under(path, TAGS)))
  {
    var i := AddIssues([], a, b);
    var f := AddFields(i, a.spec, b.spec);
    var o := AddOptions(f, a.spec.options, b.spec.options);
    var n := NamesDiffer(a.spec, b.spec, same);
    AtOneMore([], FirstIssue(a, b), ISSUED_AT, path);
    AtOneMore([] + When(FirstIssue(a, b), ISSUED_AT), Renewed(a, b), SERIAL, path);
    AtFields(i, a.spec, b.spec, path);
    var nil := a.spec.options.Some? != b.spec.options.Some?;
    AtOneMore(f, nil, OPTIONS, path);
    AtOneMore(f + When(nil, OPTIONS), PreferenceDiffers(a.spec.options, b.spec.options), PREFERENCE, path);
    AtOneMore(o, n, Dot(SPEC, SubjectAlternativeNames), path);
    AtOneMore(o + When(n, Dot(SPEC, SubjectAlternativeNames)), TagsDiffer(a.tags, b.tags), TAGS, path);
  }

  /** What `sdkUpdate` and the caller ask of a delta: the two export triggers, the tags, anything
      beyond the tags, the options, anything under Spec. */
  datatype Asked = Asked(firstIssue: bool, renewed: bool, tags: bool, beyondTags: bool, options: bool, anything: bool)

  function Ask(d: seq<Path>): Asked {
    Asked(At(d, ISSUED_AT), At(d, SERIAL), At(d, TAGS), Except(d, TAGS), At(d, OPTIONS), At(d, SPEC))
  }

  /** The answers, from the two resources alone. */
  function Differing(a: CertificateValue, b: CertificateValue, same: ListEquality): Asked {
    var beyond := ExportPending(a, b) || a.spec.options != b.spec.options || OthersDiffer(a, b, same);
    Asked(
      FirstIssue(a, b),
      Renewed(a, b),
      TagsDiffer(a.tags, b.tags),
      beyond,
      a.spec.options != b.spec.options,
      beyond || TagsDiffer(a.tags, b.tags))
  }

  /** What each question asked of the delta means for the two resources. */
  lemma DeltaMeaning(a: CertificateValue, b: CertificateValue, same: ListEquality)
    ensures Ask(Differences(a, b, same)) == Differing(a, b, same)
    ensures Differing(a, b, same).anything <==> Differences(a, b, same) != []
  {
    var d := Differences(a, b, same);
    FirstIssueQuestion(a, b, same);
    RenewedQuestion(a, b, same);
    AtDifferences(a, b, same, TAGS);
    AtDifferences(a, b, same, OPTIONS);
    AtDifferences(a, b, same, SPEC);
    NothingElse(d);
  }

  lemma FirstIssueQuestion(a: CertificateValue, b: CertificateValue, same: ListEquality)
    ensures At(Differences(a, b, same), ISSUED_AT) <==> FirstIssue(a, b)
  {
    AtDifferences(a, b, same, ISSUED_AT);
  }

  lemma RenewedQuestion(a: CertificateValue, b: CertificateValue, same: ListEquality)
    ensures At(Differences(a, b, same), SERIAL) <==> Renewed(a, b)
  {
    AtDifferences(a, b, same, SERIAL);
  }

  /** A difference is somewhere. */
  lemma NothingElse(d: seq<Path>)
    ensures d != [] <==> At(d, SPEC) || Except(d, SPEC)
  {
    assert d != [] ==> Under(SPEC, d[0]) || Except(d, SPEC);
  }
}
