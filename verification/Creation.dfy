/** `sdkCreate` with its import hook, and why a resource never owns two certificates. */
module Creation {
  import opened Values
  import opened Objects
  import opened Requests
  import C = Conditions
  import R = Reconcile

  /* ----- what a create decides ----- */

  datatype Decision = Import | Request | Refuse(error: Error)

  const MIXED_IMPORT := TerminalError(Plain("cannot set fields used for requesting a certificate when importing a certificate"))
  const MIXED_REQUEST := TerminalError(Plain("cannot set fields used for importing a certificate when requesting a certificate"))
  const KEY_REQUIRED := TerminalError(Plain("privateKey is required when importing a certificate"))
  const TOO_MANY_OPTIONS := Plain("Too many domain validation errors")
  const VALIDATION_LIMIT := 5

  function Count<T>(list: Option<seq<T>>): nat {
    if list.Some? then |list.value| else 0
  }

  predicate HasRequestFields(spec: Spec) {
    || spec.domainName.Some? || Count(spec.domainValidationOptions) > 0 || spec.keyAlgorithm.Some?
    || Count(spec.subjectAlternativeNames) > 0 || spec.options.Some?
  }

  function ImportDecision(spec: Spec, secrets: SecretReader): Decision {
    var input := ImportPayload(spec, [], secrets);
    if HasRequestFields(spec) then Refuse(MIXED_IMPORT)
    else if input.Err? then Refuse(input.error)
    else if input.value.privateKey == "" then Refuse(KEY_REQUIRED)
    else Import
  }

  /** The limit is checked when an authority ARN *is* set, whatever its comment says. */
  predicate TooManyOptions(spec: Spec) {
    spec.certificateAuthorityARN.Some? && Count(spec.domainValidationOptions) > VALIDATION_LIMIT
  }

  function Decide(spec: Spec, secrets: SecretReader): Decision {
    if spec.certificate.Some? then ImportDecision(spec, secrets)
    else if spec.domainName.Some? && (spec.privateKey.Some? || spec.certificateChain.Some?) then Refuse(MIXED_REQUEST)
    else if TooManyOptions(spec) then Refuse(TerminalError(TOO_MANY_OPTIONS))
    else Request
  }

  /* ----- the imperative code ----- */

  /** How the one mutating call of a create goes: the new certificate's ARN, and whether the response
      carries it; an error with nothing made; or an error after the certificate was made. */
  datatype Outcome = Created(arn: string, reported: bool) | Failed(error: Error) | Lost(arn: string, error: Error)

  datatype MutatingCall = ImportCall(imported: ImportInput) | RequestCall(requested: RequestInput)

  /** The account's certificates made for one resource, and the calls made for it. */
  class Account {
    var live: set<string>
    ghost var calls: seq<MutatingCall>

    constructor ()
      ensures live == {} && calls == []
    {
      live, calls := {}, [];
    }

    method Make(call: MutatingCall, outcome: Outcome) returns (arn: Option<string>, error: Option<Error>)
      modifies this
      ensures calls == old(calls) + [call]
      ensures live == Lived(old(live), outcome)
      ensures error == (if outcome.Created? then None else Some(outcome.error))
      ensures arn == Reported(outcome)
    {
      calls := calls + [call];
      match outcome
      case Created(a, reported) =>
        live := live + {a};
        return if reported then Some(a) else None, None;
      case Failed(e) =>
        return None, Some(e);
      case Lost(a, e) =>
        live := live + {a};
        return None, Some(e);
    }
  }

  function Lived(live: set<string>, outcome: Outcome): set<string> {
    if outcome.Failed? then live else live + {outcome.arn}
  }

  function Reported(outcome: Outcome): Option<string> {
    if outcome.Created? && outcome.reported then Some(outcome.arn) else None
  }

  /** The resource a create returns: the desired one, with the reported ARN recorded. */
  function WithArn(desired: CertificateValue, arn: Option<string>, rm: Identity): CertificateValue {
    desired.(status := StatusWithArn(desired.status, arn, rm))
  }

  function StatusWithArn(status: Status, arn: Option<string>, rm: Identity): Status {
    var m := if status.metadata.Some? then status.metadata.value else Metadata(None, None, None);
    WithDefaults(status.(metadata := Some(if arn.Some? then m.(arn := arn) else m)), rm)
  }

  function CreateResult(rm: Identity, desired: CertificateValue, secrets: SecretReader, outcome: Outcome): Result<CertificateValue> {
    var decision := Decide(desired.spec, secrets);
    if decision.Refuse? then Err(decision.error)
    else if !outcome.Created? then Err(outcome.error)
    else Ok(WithArn(desired, Reported(outcome), rm))
  }

  /** The mutating calls of a create, with what they carry. */
  function CallsMade(desired: CertificateValue, secrets: SecretReader): seq<MutatingCall> {
    match Decide(desired.spec, secrets)
    case Import => [ImportCall(ImportPayload(desired.spec, desired.tags, secrets).value)]
    case Request => [RequestCall(Payload(desired.spec, desired.tags))]
    case Refuse(_) => []
  }

  /** `maybeImportCertificate`. */
  method MaybeImportCertificate(rm: Identity, desired: Certificate, secrets: SecretReader, account: Account, outcome: Outcome)
    returns (created: Certificate?, isImport: bool, error: Option<Error>)
    modifies account
    ensures desired.spec.certificate.Some? ==>
              var decision := Decide(desired.spec, secrets);
              && account.calls == old(account.calls) + CallsMade(desired.Value(), secrets)
              && account.live == (if decision.Import? then Lived(old(account.live), outcome) else old(account.live))
              && Returned(CreateResult(rm, desired.Value(), secrets, outcome), created, error)
              && isImport == error.None?
    ensures desired.spec.certificate.None? ==>
              && created == null && !isImport && account.calls == old(account.calls) && account.live == old(account.live)
              && error == if desired.spec.domainName.Some? && (desired.spec.privateKey.Some? || desired.spec.certificateChain.Some?)
                          then Some(MIXED_REQUEST) else None
  {
    created, isImport := null, false;
    var spec := desired.spec;
    if spec.certificate != None {
      if spec.domainName != None || Count(spec.domainValidationOptions) > 0 || spec.keyAlgorithm != None ||
         Count(spec.subjectAlternativeNames) > 0 || spec.options != None {
        return null, false, Some(MIXED_IMPORT);
      }
      var input := NewImportCertificateInput(desired, secrets);
      if input.Err? {
        return null, false, Some(input.error);
      }
      if |input.value.privateKey| == 0 {
        return null, false, Some(KEY_REQUIRED);
      }
      var arn;
      arn, error := account.Make(ImportCall(input.value), outcome);
      if error != None {
        return;
      }
      created := RecordArn(rm, desired, arn);
      isImport := true;
      return;
    }
    if spec.domainName != None && (spec.certificate != None || spec.privateKey != None || spec.certificateChain != None) {
      return null, false, Some(MIXED_REQUEST);
    }
    error := None;
  }

  ghost predicate Returned(result: Result<CertificateValue>, created: Certificate?, error: Option<Error>)
    reads created, if created == null then [] else created.tags, if created == null then [] else created.conditions
  {
    match result
    case Ok(value) => error.None? && created != null && created.Value() == value
    case Err(e) => error == Some(e) && created == null
  }

  method RecordArn(rm: Identity, desired: Certificate, arn: Option<string>) returns (ko: Certificate)
    ensures ko.Value() == WithArn(desired.Value(), arn, rm)
    ensures fresh(ko) && (forall t :: t in ko.tags ==> fresh(t)) && (forall c :: c in ko.conditions ==> fresh(c))
  {
    ko := desired.DeepCopy();
    ghost var copied := ko.Value();
    SetArn(rm, ko, arn);
    assert ko.Value() == copied.(status := ko.status);
  }

  /** The assignments to the status of the copy. */
  method SetArn(rm: Identity, ko: Certificate, arn: Option<string>)
    modifies ko`status
    ensures ko.status == StatusWithArn(old(ko.status), arn, rm)
  {
    if ko.status.metadata == None {
      ko.status := ko.status.(metadata := Some(Metadata(None, None, None)));
    }
    if arn != None {
      ko.status := ko.status.(metadata := Some(ko.status.metadata.value.(arn := arn)));
    }
    ko.status := WithDefaults(ko.status, rm);
  }

  /** The desired resource does not change; at most one mutating call is made. */
  method SdkCreate(rm: Identity, desired: Certificate, secrets: SecretReader, account: Account, outcome: Outcome)
    returns (created: Certificate?, error: Option<Error>)
    modifies account
    ensures var decision := Decide(desired.spec, secrets);
            && account.calls == old(account.calls) + CallsMade(desired.Value(), secrets)
            && account.live == (if decision.Refuse? then old(account.live) else Lived(old(account.live), outcome))
    ensures Returned(CreateResult(rm, desired.Value(), secrets, outcome), created, error)
  {
    var isImport;
    created, isImport, error := MaybeImportCertificate(rm, desired, secrets, account, outcome);
    if error != None {
      return null, error;
    }
    if isImport {
      return created, None;
    }
    if desired.spec.certificateAuthorityARN != None {
      var numDVOptions := Count(desired.spec.domainValidationOptions);
      if numDVOptions > VALIDATION_LIMIT {
        return null, Some(TerminalError(TOO_MANY_OPTIONS));
      }
    }
    created, error := RequestCertificate(rm, desired, account, outcome);
  }

  /** The rest of `sdkCreate`: the request, and the ARN recorded. */
  method RequestCertificate(rm: Identity, desired: Certificate, account: Account, outcome: Outcome)
    returns (created: Certificate?, error: Option<Error>)
    modifies account
    ensures account.calls == old(account.calls) + [RequestCall(Payload(desired.spec, TagValues(desired.tags)))]
    ensures account.live == Lived(old(account.live), outcome)
    ensures Returned(if outcome.Created? then Ok(WithArn(desired.Value(), Reported(outcome), rm)) else Err(outcome.error), created, error)
  {
    var input := CompletePayload(desired);
    var arn;
    arn, error := account.Make(RequestCall(input), outcome);
    if error != None {
      return null, error;
    }
    created := RecordArn(rm, desired, arn);
  }

  /* ----- what a create calls, spelled out ----- */

  /** Fields for importing next to fields for requesting. */
  predicate Mixed(spec: Spec) {
    if spec.certificate.Some? then
      || spec.domainName.Some? || spec.keyAlgorithm.Some? || spec.options.Some?
      || (spec.domainValidationOptions.Some? && spec.domainValidationOptions.value != [])
      || (spec.subjectAlternativeNames.Some? && spec.subjectAlternativeNames.value != [])
    else spec.domainName.Some? && (spec.privateKey.Some? || spec.certificateChain.Some?)
  }

  /** An authority ARN with more than five validation options: the limit is checked when the ARN *is* set. */
  predicate OverLimit(spec: Spec) {
    spec.certificateAuthorityARN.Some? && spec.domainValidationOptions.Some? && |spec.domainValidationOptions.value| > 5
  }

  /** What a Secret reference yields: nothing for none, else what the reader answers. */
  predicate Yields(secrets: SecretReader, reference: Option<SecretReference>, value: string) {
    match reference
    case None => value == ""
    case Some(entry) => secrets(entry) == Ok(value)
  }

  /** At most one call. An import is made exactly for a resource with a certificate and no request fields
      whose Secrets can be read and whose key is not empty, and carries what the Secrets hold; a request
      exactly for one with neither a certificate, nor a mix, nor too many options. */
  lemma CallsExactly(c: CertificateValue, secrets: SecretReader)
    ensures |CallsMade(c, secrets)| <= 1
    ensures Mixed(c.spec) ==> CallsMade(c, secrets) == [] && C.IsTerminal(Some(Decide(c.spec, secrets).error))
    ensures forall input :: CallsMade(c, secrets) == [ImportCall(input)] <==>
              && c.spec.certificate.Some? && !Mixed(c.spec)
              && Yields(secrets, c.spec.certificate, input.certificate)
              && Yields(secrets, c.spec.certificateChain, input.chain)
              && Yields(secrets, c.spec.privateKey, input.privateKey) && input.privateKey != ""
              && input.certificateArn == c.spec.certificateARN && input.tags == c.tags
    ensures CallsMade(c, secrets) != [] && CallsMade(c, secrets)[0].RequestCall? <==>
            c.spec.certificate.None? && !Mixed(c.spec) && !OverLimit(c.spec)
  {
  }

  /** The fields of the request that is made: the Spec's and the tags, with DNS validation; an enumeration
      left out or given as "" is not set; exporting is enabled exactly for a certificate with an export
      target and neither an authority nor a reference to one. */
  lemma RequestExactly(c: CertificateValue, secrets: SecretReader, input: RequestInput)
    requires CallsMade(c, secrets) == [RequestCall(input)]
    ensures input.certificateAuthorityARN == c.spec.certificateAuthorityARN
    ensures input.domainName == c.spec.domainName
    ensures input.domainValidationOptions == c.spec.domainValidationOptions
    ensures input.subjectAlternativeNames == c.spec.subjectAlternativeNames
    ensures input.tags == c.tags
    ensures input.validationMethod == "DNS"
    ensures input.keyAlgorithm == match c.spec.keyAlgorithm case Some(k) => k case None => ""
    ensures var exporting := c.spec.exportTo.Some? && c.spec.certificateAuthorityARN.None? && c.spec.certificateAuthorityRef.None?;
            && (input.options.Some? <==> c.spec.options.Some? || exporting)
            && (input.options.Some? ==>
                  && input.options.value.exportEnabled == exporting
                  && input.options.value.loggingPreference ==
                     match c.spec.options
                     case Some(CertificateOptions(Some(preference))) => preference
                     case _ => "")
  {
    assert CallsMade(c, secrets)[0] == RequestCall(input);
    assert c.spec.certificate.None?;
  }

  /** The error of reading a Secret reference, if it has one. */
  function Unreadable(secrets: SecretReader, reference: Option<SecretReference>): Option<Error> {
    match reference
    case None => None
    case Some(entry) => (match secrets(entry) case Ok(_) => None case Err(e) => Some(e))
  }

  /** A create that makes no call is refused: terminally for a mix, for too many options and for an empty
      key; for a Secret that cannot be read (key, then certificate, then chain) with that reader's error,
      wrapped for another try. */
  lemma RefusedExactly(rm: Identity, c: CertificateValue, secrets: SecretReader, outcome: Outcome)
    requires CallsMade(c, secrets) == []
    ensures CreateResult(rm, c, secrets, outcome).Err?
    ensures var error := CreateResult(rm, c, secrets, outcome).error;
            var key, body, chain := Unreadable(secrets, c.spec.privateKey), Unreadable(secrets, c.spec.certificate),
                                    Unreadable(secrets, c.spec.certificateChain);
            if c.spec.certificate.None? || Mixed(c.spec) || (key.None? && body.None? && chain.None?) then
              error.TerminalError? && C.IsTerminal(Some(error))
            else
              error.Wrapped? && error.cause == (if key.Some? then key.value else if body.Some? then body.value else chain.value)
  {
  }

  /** What a create answers after its call: the call's error; or the desired resource with the reported
      ARN recorded, if one is, with region and owner filled in, and nothing else changed. */
  lemma CreatedExactly(rm: Identity, c: CertificateValue, secrets: SecretReader, outcome: Outcome)
    requires CallsMade(c, secrets) != []
    ensures match outcome
            case Failed(e) => CreateResult(rm, c, secrets, outcome) == Err(e)
            case Lost(_, e) => CreateResult(rm, c, secrets, outcome) == Err(e)
            case Created(arn, reported) =>
              && CreateResult(rm, c, secrets, outcome).Ok?
              && var created := CreateResult(rm, c, secrets, outcome).value;
                 && RecordedArn(created.status) == (if reported then Some(arn) else RecordedArn(c.status))
                 && R.PlaceFilled(c.status, created.status, rm)
                 && created.(status := c.status) == c && created.status.(metadata := c.status.metadata) == c.status
  {
  }

  /* ----- one certificate per resource ----- */

  /** The stored resource, the live certificates made for it, and every ARN ever given out. */
  datatype State = State(cr: CertificateValue, live: set<string>, used: set<string>)

  datatype Step =
    | Create(secrets: SecretReader, outcome: Outcome, stored: bool)
    | Vanish(arn: string)
    | Edit(spec: Spec)

  /** `sdkFind` answers NotFound: no ARN is recorded, or the recorded certificate is gone. */
  predicate Missing(s: State) {
    RecordedArn(s.cr.status).None? || RecordedArn(s.cr.status).value !in s.live
  }

  /** An import that names the certificate to import into. */
  predicate Reimports(spec: Spec, arn: string) {
    spec.certificate.Some? && spec.certificateARN == Some(arn)
  }

  predicate Enabled(s: State, a: Step) {
    match a
    case Create(_, outcome, _) => Missing(s) && (!outcome.Failed? ==> outcome.arn !in s.used || Reimports(s.cr.spec, outcome.arn))
    case _ => true
  }

  function Next(rm: Identity, s: State, a: Step): State {
    match a
    case Create(secrets, outcome, stored) =>
      if Decide(s.cr.spec, secrets).Refuse? then s
      else
        var result := CreateResult(rm, s.cr, secrets, outcome);
        State(if stored && result.Ok? then s.cr.(status := result.value.status) else s.cr,
              Lived(s.live, outcome), Lived(s.used, outcome))
    case Vanish(arn) => s.(live := s.live - {arn})
    case Edit(spec) => s.(cr := s.cr.(spec := spec))
  }

  /** Every live certificate is the recorded one. */
  predicate AtMostOne(s: State) {
    && (forall arn :: arn in s.live ==> RecordedArn(s.cr.status) == Some(arn))
    && (RecordedArn(s.cr.status).Some? ==> RecordedArn(s.cr.status).value in s.used)
  }

  /** The resource will not know of the certificate this create makes: its response is lost or carries
      no ARN, or the returned status is not stored before the next pass. */
  predicate Forgets(a: Step)
    requires a.Create?
  {
    a.outcome.Lost? || (a.outcome.Created? && !(a.outcome.reported && a.stored))
  }

  /** A create keeps at most one live certificate exactly when it makes no call, makes no certificate,
      is not forgotten, or makes the certificate that is recorded already. */
  lemma CreateKeepsExactly(rm: Identity, s: State, a: Step)
    requires AtMostOne(s) && Enabled(s, a) && a.Create?
    ensures AtMostOne(Next(rm, s, a)) <==>
            || Decide(s.cr.spec, a.secrets).Refuse? || a.outcome.Failed? || !Forgets(a)
            || RecordedArn(s.cr.status) == Some(a.outcome.arn)
  {
  }

  ghost predicate Leads(rm: Identity, s: State, steps: seq<Step>, t: State)
    decreases |steps|
  {
    if steps == [] then s == t
    else Enabled(s, steps[0]) && Leads(rm, Next(rm, s, steps[0]), steps[1..], t)
  }

  /** No create is forgotten. */
  predicate Careful(steps: seq<Step>) {
    forall i :: 0 <= i < |steps| && steps[i].Create? ==> !Forgets(steps[i])
  }

  /** Over every run, certificates vanishing and specs changing anywhere: at most one live certificate. */
  lemma {:induction false} OneCertificate(rm: Identity, s: State, steps: seq<Step>, t: State)
    requires AtMostOne(s) && Leads(rm, s, steps, t) && Careful(steps)
    ensures AtMostOne(t) && |t.live| <= 1
    decreases |steps|
  {
    if steps == [] {
      if t.live != {} {
        var arn :| arn in t.live;
        assert t.live == {arn};
      }
    } else {
      if steps[0].Create? {
        CreateKeepsExactly(rm, s, steps[0]);
      }
      OneCertificate(rm, Next(rm, s, steps[0]), steps[1..], t);
    }
  }

  /** Whatever way the first certificate is forgotten, the next create makes a second one: a request
      carries nothing ACM could recognise a repetition by. */
  lemma ForgottenMeansTwo(rm: Identity, s: State, a: Step, b: Step)
    requires RecordedArn(s.cr.status).None? && s.live == {}
    requires a.Create? && b.Create? && Forgets(a) && !b.outcome.Failed?
    requires a.outcome.arn != b.outcome.arn && a.outcome.arn !in s.used && b.outcome.arn !in s.used
    requires Decide(s.cr.spec, a.secrets).Request? && Decide(s.cr.spec, b.secrets).Request?
    ensures exists t :: Leads(rm, s, [a, b], t) && t.live == {a.outcome.arn, b.outcome.arn}
  {
    var s1 := Next(rm, s, a);
    var s2 := Next(rm, s1, b);
    assert [a, b][1..] == [b] && [b][1..] == [];
    assert Leads(rm, s1, [b], s2);
    assert Leads(rm, s, [a, b], s2);
    assert s2.live == {a.outcome.arn, b.outcome.arn};
  }
}
