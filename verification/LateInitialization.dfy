/** `LateInitialize` of manager.go: fields the user left out are filled from a read, never overridden. */
module LateInitialization {
  import opened Values
  import opened Objects
  import opened Delta
  import opened Export
  import opened Reconcile
  import C = Conditions
  import OT = OrderedTags
  import TS = TagSync
  import TP = TagPipeline

  function FillIfNil<T>(mine: Option<T>, observed: Option<T>): Option<T> {
    if observed.Some? && mine.None? then observed else mine
  }

  /** The Spec after the hook's two fields and the generated two have been filled in. */
  function Filled(latest: Spec, observed: Spec): Spec {
    latest.(
      domainValidationOptions := FillIfNil(latest.domainValidationOptions, observed.domainValidationOptions),
      subjectAlternativeNames := FillIfNil(latest.subjectAlternativeNames, observed.subjectAlternativeNames),
      keyAlgorithm := FillIfNil(latest.keyAlgorithm, observed.keyAlgorithm),
      options := FillIfNil(latest.options, observed.options))
  }

  predicate Incomplete(spec: Spec) {
    spec.keyAlgorithm.None? || spec.options.None?
  }

  const REQUEUE := Plain("late initialization did not complete")

  method LateInitializeFromReadOneOutput(observed: Certificate, latest: Certificate) returns (result: Certificate)
    ensures result.Value() == latest.Value().(spec := Defaulted(latest.spec, observed.spec))
    ensures fresh(result) && (forall t :: t in result.tags ==> fresh(t)) && (forall c :: c in result.conditions ==> fresh(c))
  {
    var observedSpec := observed.spec;
    result := latest.DeepCopy();
    ghost var copied := result.Value();
    TakeDefaults(result, observedSpec);
    assert result.Value() == copied.(spec := result.spec);
  }

  /** The two generated fields: key algorithm and options. */
  function Defaulted(latest: Spec, observed: Spec): Spec {
    latest.(keyAlgorithm := FillIfNil(latest.keyAlgorithm, observed.keyAlgorithm),
            options := FillIfNil(latest.options, observed.options))
  }

  method TakeDefaults(latestKo: Certificate, observed: Spec)
    modifies latestKo`spec
    ensures latestKo.spec == Defaulted(old(latestKo.spec), observed)
  {
    if observed.keyAlgorithm != None && latestKo.spec.keyAlgorithm == None {
      latestKo.spec := latestKo.spec.(keyAlgorithm := observed.keyAlgorithm);
    }
    if observed.options != None && latestKo.spec.options == None {
      latestKo.spec := latestKo.spec.(options := observed.options);
    }
  }

  /** The two fields of the hook: validation options and alternative names. */
  function Hooked(latest: Spec, observed: Spec): Spec {
    latest.(domainValidationOptions := FillIfNil(latest.domainValidationOptions, observed.domainValidationOptions),
            subjectAlternativeNames := FillIfNil(latest.subjectAlternativeNames, observed.subjectAlternativeNames))
  }

  method TakeHookFields(latestKo: Certificate, observed: Spec)
    modifies latestKo`spec
    ensures latestKo.spec == Hooked(old(latestKo.spec), observed)
  {
    if observed.domainValidationOptions != None && latestKo.spec.domainValidationOptions == None {
      latestKo.spec := latestKo.spec.(domainValidationOptions := observed.domainValidationOptions);
    }
    if observed.subjectAlternativeNames != None && latestKo.spec.subjectAlternativeNames == None {
      latestKo.spec := latestKo.spec.(subjectAlternativeNames := observed.subjectAlternativeNames);
    }
  }

  /** What is done with the two resources once the read has succeeded. */
  method Fill(observed: Certificate, latestCopy: Certificate) returns (result: Certificate)
    requires observed != latestCopy
    modifies latestCopy`spec
    ensures result.Value() == old(latestCopy.Value()).(spec := Filled(old(latestCopy.spec), observed.spec))
    ensures fresh(result)
  {
    ghost var before := latestCopy.Value();
    TakeHookFields(latestCopy, observed.spec);
    assert latestCopy.Value() == before.(spec := latestCopy.spec);
    result := LateInitializeFromReadOneOutput(observed, latestCopy);
  }

  /** The error of the read it starts with. */
  function ReadFailure(status: Status, f: ReadFaults): Option<Error> {
    if RecordedArn(status).None? then Some(NotFound)
    else if f.describe.Some? then Some(FindError(f.describe.value))
    else f.list
  }

  /** The passed resource does not change. A failed read fills nothing; otherwise it succeeds exactly
      when key algorithm and options are set at the end. The tags come back with AWS's own mirrored. */
  method LateInitialize(rm: Identity, latest: Certificate, acm: AcmCertificate, client: TS.TagClient, f: ReadFaults)
    returns (result: Certificate, error: Option<Error>)
    ensures ReadFailure(latest.status, f).Some? ==>
              && error == Some(C.ErrorAnswer(latest.Value(), rm, ReadFailure(latest.status, f).value))
              && result.spec == latest.spec && TagValues(result.tags) == TagValues(latest.tags)
    ensures ReadFailure(latest.status, f).None? ==>
              && result.spec == Filled(latest.spec, ReadSpec(latest.spec, Describe(acm)))
              && error == (if Incomplete(result.spec) then Some(REQUEUE) else None)
              && OT.IsListOf(OT.Convert(TagValues(latest.tags)) + OT.AwsPart(client.tags), OT.KeyOrder(TagValues(latest.tags)), TagValues(result.tags))
    ensures result.namespace == latest.namespace && result.status == latest.status
    ensures fresh(result)
  {
    var latestCopy, observed, err := ReadCopy(rm, latest, acm, client, f);
    if err != None {
      return latestCopy, err;
    }
    ghost var mirrored := latestCopy.Value();
    result := Fill(observed, latestCopy);
    assert result.Value().tags == mirrored.tags;
    error := if Incomplete(result.spec) then Some(REQUEUE) else None;
  }

  /** The copy that is worked on, and the read it is passed to. */
  method ReadCopy(rm: Identity, latest: Certificate, acm: AcmCertificate, client: TS.TagClient, f: ReadFaults)
    returns (latestCopy: Certificate, observed: Certificate, error: Option<Error>)
    ensures fresh(latestCopy) && fresh(observed) && latestCopy != observed
    ensures latestCopy.Value() == latest.Value().(tags := TagValues(latestCopy.tags))
    ensures ReadFailure(latest.status, f).Some? ==>
              && error == Some(C.ErrorAnswer(latest.Value(), rm, ReadFailure(latest.status, f).value))
              && TagValues(latestCopy.tags) == TagValues(latest.tags)
    ensures ReadFailure(latest.status, f).None? ==>
              && error.None? && observed.spec == ReadSpec(latest.spec, Describe(acm))
              && OT.IsListOf(OT.Convert(TagValues(latest.tags)) + OT.AwsPart(client.tags), OT.KeyOrder(TagValues(latest.tags)), TagValues(latestCopy.tags))
  {
    ghost var before := latest.Value();
    latestCopy := latest.DeepCopy();
    assert latestCopy.Value() == before && TagValues(latestCopy.tags) == before.tags;
    ghost var answer, failure;
    observed, error, answer, failure := ReadOne(rm, latestCopy, acm, client, f);
    assert latest.Value() == before;
    assert failure == ReadFailure(latest.status, f);
    if failure.None? {
      TP.ConvertEnumeration(answer.value.tags, client.tags);
      assert observed.Value().spec == answer.value.spec;
    }
  }

  /* ----- what it keeps ----- */

  /** The Spec after one late initialisation against a fixed backend. */
  function Initialized(spec: Spec, acm: AcmCertificate): Spec {
    Filled(spec, ReadSpec(spec, Describe(acm)))
  }

  /** Field by field: what is set stays, what is nil takes what ACM reports, and no other field changes;
      it is complete exactly when user or ACM give key algorithm and options. */
  lemma InitializedExactly(spec: Spec, acm: AcmCertificate)
    ensures var after := Initialized(spec, acm);
            && after.keyAlgorithm == (if spec.keyAlgorithm.Some? then spec.keyAlgorithm
                                      else if acm.facts.keyAlgorithm == "" then None else Some(acm.facts.keyAlgorithm))
            && after.options == (if spec.options.Some? then spec.options
                                 else match acm.options
                                      case None => None
                                      case Some(p) => Some(CertificateOptions(if p == "" then None else Some(p))))
            && after.subjectAlternativeNames == (if spec.subjectAlternativeNames.Some? then spec.subjectAlternativeNames
                                                 else acm.facts.subjectAlternativeNames)
            && (if spec.domainValidationOptions.Some? then after.domainValidationOptions == spec.domainValidationOptions
                else SameValidations(after.domainValidationOptions, acm.facts.validations))
            && after.(keyAlgorithm := spec.keyAlgorithm, options := spec.options,
                      subjectAlternativeNames := spec.subjectAlternativeNames,
                      domainValidationOptions := spec.domainValidationOptions) == spec
            && (!Incomplete(after) <==>
                (spec.keyAlgorithm.Some? || acm.facts.keyAlgorithm != "") && (spec.options.Some? || acm.options.Some?))
  {
  }

  /** A second late initialisation changes nothing. */
  lemma InitializingTwice(spec: Spec, acm: AcmCertificate)
    ensures Initialized(Initialized(spec, acm), acm) == Initialized(spec, acm)
  {
  }

  /** Two key algorithms are the same but for dashes against underscores. */
  predicate SameAlgorithm(a: string, b: string) {
    |a| == |b| && forall i :: 0 <= i < |a| ==> a[i] == b[i] || (a[i] == '-' && b[i] == '_') || (a[i] == '_' && b[i] == '-')
  }

  /** Key algorithms compare equal exactly when they agree up to dashes and underscores. */
  lemma KeyAlgorithmsModuloDashes(a: string, b: string)
    ensures Normalize(a) == Normalize(b) <==> SameAlgorithm(a, b)
  {
    if Normalize(a) == Normalize(b) {
      forall i | 0 <= i < |a|
        ensures a[i] == b[i] || (a[i] == '-' && b[i] == '_') || (a[i] == '_' && b[i] == '-')
      {
        assert Normalize(a)[i] == Normalize(b)[i];
      }
    }
  }
}
