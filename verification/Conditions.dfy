/** The conditions machine of sdk.go and manager.go: `updateConditions`, `onError`, `onSuccess`. */
module Conditions {
  import opened Values
  import opened Objects

  /* ----- classifying errors ----- */

  const TERMINAL_CODES: set<string> := {
    "InvalidParameterException",
    "InvalidDomainValidationOptionsException",
    "InvalidTagException",
    "TagPolicyException",
    "TooManyTagsException",
    "InvalidArnException"
  }

  /** `errors.As` to an API error: the first one along the chain. */
  function AsApiError(error: Error): Option<Error> {
    match error
    case Api(_, _) => Some(error)
    case TerminalError(cause) => AsApiError(cause)
    case Wrapped(_, cause) => AsApiError(cause)
    case _ => None
  }

  /** `errors.As` to a `TerminalError`. */
  predicate AsTerminalError(error: Error) {
    match error
    case TerminalError(_) => true
    case Wrapped(_, cause) => AsTerminalError(cause)
    case _ => false
  }

  function Message(error: Error): string {
    match error
    case Api(code, text) => code + ": " + text
    case SecretTypeNotSupported => "only opaque secrets can be used"
    case SecretNotFound => "kubernetes secret not found"
    case NotFound => "resource not found"
    case ResourceTerminal => "resource is in terminal condition"
    case TerminalError(cause) => Message(cause)
    case Wrapped(text, cause) => text + ": " + Message(cause)
    case Plain(text) => text
  }

  predicate TerminalAWSError(error: Option<Error>) {
    error.Some? &&
    var api := AsApiError(error.value);
    api.Some? && api.value.Api? && api.value.code in TERMINAL_CODES
  }

  /** The errors that put the resource in the Terminal condition. */
  predicate IsTerminal(error: Option<Error>) {
    || TerminalAWSError(error)
    || error == Some(SecretTypeNotSupported)
    || error == Some(SecretNotFound)
    || (error.Some? && AsTerminalError(error.value))
  }

  function TerminalMessage(error: Error): string
    requires IsTerminal(Some(error))
  {
    if error == SecretTypeNotSupported || error == SecretNotFound || AsTerminalError(error) then Message(error)
    else Message(AsApiError(error).value)
  }

  function RecoverableMessage(error: Error): string {
    var api := AsApiError(error);
    if api.Some? then Message(api.value) else Message(error)
  }

  /* ----- what `updateConditions` computes ----- */

  /** The last condition of a kind, or -1: the one the scanning loop ends up pointing at. */
  function LastOf(cs: seq<ConditionValue>, kind: ConditionKind): (i: int)
    ensures -1 <= i < |cs|
    ensures i >= 0 ==> cs[i].kind == kind
    ensures forall j :: i < j < |cs| ==> cs[j].kind != kind
  {
    if cs == [] then -1
    else if cs[|cs| - 1].kind == kind then |cs| - 1
    else LastOf(cs[..|cs| - 1], kind)
  }

  /** Sets status and message of the condition at `i`. */
  function SetAt(cs: seq<ConditionValue>, i: nat, status: ConditionStatus, message: Option<string>): seq<ConditionValue>
    requires i < |cs|
  {
    cs[i := cs[i].(status := status, message := message)]
  }

  /** Sets the last condition of a kind, appending one if there is none. */
  function Put(cs: seq<ConditionValue>, kind: ConditionKind, status: ConditionStatus, message: Option<string>): seq<ConditionValue> {
    var i := LastOf(cs, kind);
    if i < 0 then cs + [ConditionValue(kind, status, message, None)] else SetAt(cs, i, status, message)
  }

  /** Clears the last condition of a kind, if there is one. */
  function Clear(cs: seq<ConditionValue>, kind: ConditionKind): seq<ConditionValue> {
    var i := LastOf(cs, kind);
    if i < 0 then cs else SetAt(cs, i, False, None)
  }

  /** The Terminal and Recoverable conditions after an error, or after none. */
  function Marked(cs: seq<ConditionValue>, error: Option<Error>): seq<ConditionValue> {
    if IsTerminal(error) then Put(cs, Terminal, True, Some(TerminalMessage(error.value)))
    else
      var cleared := Clear(cs, Terminal);
      if error.Some? then Put(cleared, Recoverable, True, Some(RecoverableMessage(error.value)))
      else Clear(cleared, Recoverable)
  }

  function Updated(cs: seq<ConditionValue>, onSuccess: bool, error: Option<Error>): seq<ConditionValue> {
    var marked := Marked(cs, error);
    if onSuccess && LastOf(cs, ResourceSynced) < 0
    then marked + [ConditionValue(ResourceSynced, True, None, None)]
    else marked
  }

  /** Whether `updateConditions` reports an update. */
  predicate Reports(cs: seq<ConditionValue>, onSuccess: bool, error: Option<Error>) {
    || error.Some? || onSuccess
    || LastOf(cs, Terminal) >= 0 || LastOf(cs, Recoverable) >= 0 || LastOf(cs, ResourceSynced) >= 0
  }

  /* ----- the imperative code ----- */

  /** The scanning loop: the last condition of each of the three kinds. */
  method FindConditions(conditions: seq<Condition>) returns (terminal: Condition?, recoverable: Condition?, synced: Condition?)
    ensures Points(conditions, terminal, Terminal)
    ensures Points(conditions, recoverable, Recoverable)
    ensures Points(conditions, synced, ResourceSynced)
  {
    terminal, recoverable, synced := null, null, null;
    ghost var values := ConditionValues(conditions);
    for i := 0 to |conditions|
      invariant PointsIn(conditions, values[..i], terminal, Terminal)
      invariant PointsIn(conditions, values[..i], recoverable, Recoverable)
      invariant PointsIn(conditions, values[..i], synced, ResourceSynced)
    {
      var condition := conditions[i];
      assert values[..i + 1][..i] == values[..i];
      if condition.kind == Terminal {
        terminal := condition;
      }
      if condition.kind == Recoverable {
        recoverable := condition;
      }
      if condition.kind == ResourceSynced {
        synced := condition;
      }
    }
    assert values[..|conditions|] == values;
  }

  ghost predicate PointsIn(conditions: seq<Condition>, values: seq<ConditionValue>, c: Condition?, kind: ConditionKind)
    requires |values| <= |conditions|
  {
    var i := LastOf(values, kind);
    if i < 0 then c == null else c == conditions[i]
  }

  ghost predicate Points(conditions: seq<Condition>, c: Condition?, kind: ConditionKind)
    reads conditions
  {
    PointsIn(conditions, ConditionValues(conditions), c, kind)
  }

  /** Sets a condition through the pointer found for its kind, appending a new object if it is nil. */
  method PutCondition(ko: Certificate, c: Condition?, kind: ConditionKind, status: ConditionStatus, message: Option<string>)
    returns (r: Condition)
    requires Distinct(ko.conditions) && Points(ko.conditions, c, kind)
    modifies ko`conditions, if c == null then {} else {c}
    ensures ConditionValues(ko.conditions) == Put(old(ConditionValues(ko.conditions)), kind, status, message)
    ensures Distinct(ko.conditions)
    ensures forall x :: x in ko.conditions ==> x in old(ko.conditions) || fresh(x)
  {
    ghost var before := ConditionValues(ko.conditions);
    if c == null {
      r := new Condition(ConditionValue(kind, status, message, None));
      ko.conditions := ko.conditions + [r];
    } else {
      r := c;
      r.status := status;
      r.message := message;
    }
  }

  /** Clears a condition through the pointer found for its kind. */
  method ClearCondition(ghost ko: Certificate, c: Condition?, ghost kind: ConditionKind)
    requires Distinct(ko.conditions) && Points(ko.conditions, c, kind)
    modifies if c == null then {} else {c}
    ensures ConditionValues(ko.conditions) == Clear(old(ConditionValues(ko.conditions)), kind)
  {
    if c != null {
      c.status := False;
      c.message := None;
    }
  }

  /** The value `updateConditions` returns. */
  function UpdatedCertificate(c: CertificateValue, rm: Identity, onSuccess: bool, error: Option<Error>): CertificateValue {
    c.(status := WithDefaults(c.status, rm), conditions := Updated(c.conditions, onSuccess, error))
  }

  /** The Terminal and Recoverable half of `updateConditions`, on the copy it works on. */
  method MarkError(ko: Certificate, terminal: Condition?, recoverable: Condition?, error: Option<Error>)
    returns (terminal': Condition?, recoverable': Condition?)
    requires Distinct(ko.conditions)
    requires Points(ko.conditions, terminal, Terminal) && Points(ko.conditions, recoverable, Recoverable)
    modifies ko`conditions, set c: Condition | c in ko.conditions
    ensures ConditionValues(ko.conditions) == Marked(old(ConditionValues(ko.conditions)), error)
    ensures Distinct(ko.conditions)
    ensures forall x :: x in ko.conditions ==> x in old(ko.conditions) || fresh(x)
    ensures (terminal' != null || recoverable' != null) == (terminal != null || recoverable != null || error.Some?)
  {
    terminal', recoverable' := terminal, recoverable;
    if IsTerminal(error) {
      terminal' := PutCondition(ko, terminal, Terminal, True, Some(TerminalMessage(error.value)));
    } else {
      recoverable' := MarkOther(ko, terminal, recoverable, error);
    }
  }

  /** The branch for an error that is not terminal, and for none. */
  method MarkOther(ko: Certificate, terminal: Condition?, recoverable: Condition?, error: Option<Error>) returns (recoverable': Condition?)
    requires Distinct(ko.conditions) && !IsTerminal(error)
    requires Points(ko.conditions, terminal, Terminal) && Points(ko.conditions, recoverable, Recoverable)
    modifies ko`conditions, set c: Condition | c in ko.conditions
    ensures ConditionValues(ko.conditions) == Marked(old(ConditionValues(ko.conditions)), error)
    ensures Distinct(ko.conditions)
    ensures forall x :: x in ko.conditions ==> x in old(ko.conditions) || fresh(x)
    ensures recoverable' != null <==> recoverable != null || error.Some?
  {
    recoverable' := recoverable;
    ghost var cs := ConditionValues(ko.conditions);
    ClearCondition(ko, terminal, Terminal);
    ClearKeepsKinds(cs, Terminal, Recoverable);
    if error != None {
      recoverable' := PutCondition(ko, recoverable, Recoverable, True, Some(RecoverableMessage(error.value)));
    } else {
      ClearCondition(ko, recoverable, Recoverable);
    }
  }

  /** `updateConditions` on the copy it has made. */
  method UpdateInPlace(ko: Certificate, onSuccess: bool, error: Option<Error>) returns (updated: bool)
    requires Distinct(ko.conditions)
    modifies ko`conditions, set c: Condition | c in ko.conditions
    ensures ConditionValues(ko.conditions) == Updated(old(ConditionValues(ko.conditions)), onSuccess, error)
    ensures Distinct(ko.conditions)
    ensures forall x :: x in ko.conditions ==> x in old(ko.conditions) || fresh(x)
    ensures updated == Reports(old(ConditionValues(ko.conditions)), onSuccess, error)
  {
    var terminal, recoverable, synced := FindConditions(ko.conditions);
    terminal, recoverable := MarkError(ko, terminal, recoverable, error);
    if synced == null && onSuccess {
      synced := AppendSynced(ko);
    }
    updated := terminal != null || recoverable != null || synced != null;
  }

  method AppendSynced(ko: Certificate) returns (synced: Condition)
    requires Distinct(ko.conditions)
    modifies ko`conditions
    ensures ConditionValues(ko.conditions) == old(ConditionValues(ko.conditions)) + [ConditionValue(ResourceSynced, True, None, None)]
    ensures Distinct(ko.conditions)
    ensures forall x :: x in ko.conditions ==> x in old(ko.conditions) || fresh(x)
  {
    synced := new Condition(ConditionValue(ResourceSynced, True, None, None));
    ko.conditions := ko.conditions + [synced];
  }

  /** Nothing that existed before the call changes: there is no modifies clause, and what is returned is new. */
  method UpdateConditions(rm: Identity, r: Certificate, onSuccess: bool, error: Option<Error>)
    returns (result: Certificate?, updated: bool)
    ensures updated == Reports(r.Value().conditions, onSuccess, error) && updated == (result != null)
    ensures updated ==> result.Value() == UpdatedCertificate(r.Value(), rm, onSuccess, error)
    ensures updated ==> fresh(result) && Distinct(result.conditions)
    ensures updated ==> (forall t :: t in result.tags ==> fresh(t)) && (forall c :: c in result.conditions ==> fresh(c))
  {
    ghost var before := r.Value();
    var ko := CopyWithDefaults(rm, r);
    assert ConditionValues(ko.conditions) == before.conditions;
    updated := UpdateInPlace(ko, onSuccess, error);
    assert r.Value() == before;
    result := if updated then ko else null;
  }

  lemma {:induction false} ClearKeepsKinds(cs: seq<ConditionValue>, cleared: ConditionKind, kind: ConditionKind)
    ensures |Clear(cs, cleared)| == |cs| && LastOf(Clear(cs, cleared), kind) == LastOf(cs, kind)
  {
    LastOfUnique(Clear(cs, cleared), kind, LastOf(cs, kind));
  }

  lemma LastOfUnique(cs: seq<ConditionValue>, kind: ConditionKind, i: int)
    requires -1 <= i < |cs|
    requires i >= 0 ==> cs[i].kind == kind
    requires forall j :: i < j < |cs| ==> cs[j].kind != kind
    ensures LastOf(cs, kind) == i
  {
  }

  /* ----- onError and onSuccess ----- */

  /** Some condition of the kind is True. */
  ghost predicate HasTrue(cs: seq<ConditionValue>, kind: ConditionKind) {
    exists i :: 0 <= i < |cs| && cs[i].kind == kind && cs[i].status == True
  }

  /** The error `onError` answers with: the terminal one if a Terminal condition is True afterwards. */
  ghost function ErrorAnswer(c: CertificateValue, rm: Identity, error: Error): Error {
    if HasTrue(UpdatedCertificate(c, rm, false, Some(error)).conditions, Terminal) then ResourceTerminal else error
  }

  method OnError(rm: Identity, r: Certificate?, error: Error) returns (result: Certificate?, err: Error)
    ensures r == null ==> result == null && err == error
    ensures r != null ==>
              && result != null && fresh(result) && (forall t :: t in result.tags ==> fresh(t)) && (forall c :: c in result.conditions ==> fresh(c))
              && result.Value() == UpdatedCertificate(r.Value(), rm, false, Some(error))
              && err == ErrorAnswer(r.Value(), rm, error)
  {
    if r == null {
      return null, error;
    }
    var r1, updated := UpdateConditions(rm, r, false, Some(error));
    if !updated {
      return r, error;
    }
    var terminal := SomeTerminal(r1.conditions);
    if terminal {
      return r1, ResourceTerminal;
    }
    return r1, error;
  }

  /** The scan of `onError`. */
  method SomeTerminal(conditions: seq<Condition>) returns (found: bool)
    ensures found == HasTrue(ConditionValues(conditions), Terminal)
  {
    for i := 0 to |conditions|
      invariant forall j :: 0 <= j < i ==> !(conditions[j].kind == Terminal && conditions[j].status == True)
    {
      var condition := conditions[i];
      if condition.kind == Terminal && condition.status == True {
        assert ConditionValues(conditions)[i] == condition.Value();
        return true;
      }
    }
    return false;
  }

  method OnSuccess(rm: Identity, r: Certificate?) returns (result: Certificate?)
    ensures r == null ==> result == null
    ensures r != null ==>
              && result != null && fresh(result) && (forall t :: t in result.tags ==> fresh(t)) && (forall c :: c in result.conditions ==> fresh(c))
              && result.Value() == UpdatedCertificate(r.Value(), rm, true, None)
  {
    if r == null {
      return null;
    }
    var r1, updated := UpdateConditions(rm, r, true, None);
    if !updated {
      return r;
    }
    return r1;
  }
}
