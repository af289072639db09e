/** Reference resolution of references.go. */
module References {
  import opened Values
  import opened Objects
  import C = Conditions

  /** A CertificateAuthority resource, as far as a reference to it goes. */
  datatype Authority = Authority(metadata: Option<Metadata>, conditions: seq<ConditionValue>)

  datatype Name = Name(namespace: string, name: string)

  /** What the API reader answers for each namespace and name: an authority, or any error. */
  type Cluster = Name -> Result<Authority>

  const EMPTY_REFERENCE := Plain("provided resource reference is nil or empty: CertificateAuthorityRef")
  const REFERENCE_TERMINAL := Plain("referenced resource is terminal")
  const REFERENCE_NOT_SYNCED := Plain("referenced resource is not synced")
  const REFERENCE_MISSING_ARN := Plain("referenced resource has no ARN")
  const REFERENCE_AND_ID := Plain("both CertificateAuthorityARN and CertificateAuthorityRef are set")

  function ArnOf(a: Authority): Option<string> {
    if a.metadata.Some? then a.metadata.value.arn else None
  }

  /** The referenced authority may be used: not terminal, synced, and with an ARN. */
  ghost predicate Usable(a: Authority) {
    !C.HasTrue(a.conditions, Terminal) && C.HasTrue(a.conditions, ResourceSynced) && ArnOf(a).Some?
  }

  /** Why a referenced authority cannot be used: the first check that fails. */
  ghost function StateError(answer: Result<Authority>): Option<Error> {
    if answer.Err? then Some(answer.error)
    else if C.HasTrue(answer.value.conditions, Terminal) then Some(REFERENCE_TERMINAL)
    else if !C.HasTrue(answer.value.conditions, ResourceSynced) then Some(REFERENCE_NOT_SYNCED)
    else if ArnOf(answer.value).None? then Some(REFERENCE_MISSING_ARN)
    else None
  }

  /** The two loops over the conditions, and the checks after each. */
  method GetReferencedResourceState(cluster: Cluster, name: Name) returns (error: Option<Error>)
    ensures error == StateError(cluster(name))
    ensures error.None? <==> cluster(name).Ok? && Usable(cluster(name).value)
  {
    if cluster(name).Err? {
      return Some(cluster(name).error);
    }
    var obj := cluster(name).value;
    for i := 0 to |obj.conditions|
      invariant forall j :: 0 <= j < i ==> !(obj.conditions[j].kind == Terminal && obj.conditions[j].status == True)
    {
      var cond := obj.conditions[i];
      if cond.kind == Terminal && cond.status == True {
        return Some(REFERENCE_TERMINAL);
      }
    }
    var refResourceSynced := false;
    for i := 0 to |obj.conditions|
      invariant refResourceSynced <==> exists j :: 0 <= j < i && obj.conditions[j].kind == ResourceSynced && obj.conditions[j].status == True
    {
      var cond := obj.conditions[i];
      if cond.kind == ResourceSynced && cond.status == True {
        refResourceSynced := true;
      }
    }
    if !refResourceSynced {
      return Some(REFERENCE_NOT_SYNCED);
    }
    if obj.metadata == None || obj.metadata.value.arn == None {
      return Some(REFERENCE_MISSING_ARN);
    }
    error := None;
  }

  /** The reference of a Spec, if there is one to resolve. */
  function ReferenceOf(spec: Spec): Option<ResourceReference> {
    if spec.certificateAuthorityRef.Some? then spec.certificateAuthorityRef.value.from else None
  }

  /** The namespace and name a reference points at; an empty namespace means the resource's own. */
  function Pointed(namespace: string, r: ResourceReference): Name
    requires r.name.Some?
  {
    Name(if r.namespace.Some? && r.namespace.value != "" then r.namespace.value else namespace, r.name.value)
  }

  /** The reference resolves: to this authority, which may be used. */
  ghost predicate ResolvesTo(cluster: Cluster, namespace: string, spec: Spec, a: Authority) {
    var r := ReferenceOf(spec);
    && r.Some? && r.value.name.Some? && r.value.name.value != ""
    && cluster(Pointed(namespace, r.value)) == Ok(a) && Usable(a)
  }

  /** The error of resolving a Spec's reference, if it has one. */
  ghost function ResolutionError(cluster: Cluster, namespace: string, spec: Spec): Option<Error> {
    var r := ReferenceOf(spec);
    if r.None? then None
    else if r.value.name.None? || r.value.name.value == "" then Some(EMPTY_REFERENCE)
    else StateError(cluster(Pointed(namespace, r.value)))
  }

  /** The one step of resolution: the ARN is written into the passed resource, or there is an error
      and nothing is written. */
  method ResolveReferenceForCertificateAuthorityARN(cluster: Cluster, ko: Certificate)
    returns (hasReferences: bool, error: Option<Error>)
    modifies ko`spec
    ensures hasReferences == ReferenceOf(old(ko.spec)).Some?
    ensures !hasReferences ==> error.None? && ko.spec == old(ko.spec)
    ensures hasReferences && error.None? ==>
              exists a :: ResolvesTo(cluster, ko.namespace, old(ko.spec), a) && ko.spec == old(ko.spec).(certificateAuthorityARN := ArnOf(a))
    ensures error.Some? ==> ko.spec == old(ko.spec) && forall a :: !ResolvesTo(cluster, ko.namespace, old(ko.spec), a)
    ensures error == ResolutionError(cluster, ko.namespace, old(ko.spec))
  {
    hasReferences, error := false, None;
    if ko.spec.certificateAuthorityRef != None && ko.spec.certificateAuthorityRef.value.from != None {
      hasReferences := true;
      var arr := ko.spec.certificateAuthorityRef.value.from.value;
      if arr.name == None || arr.name.value == "" {
        return hasReferences, Some(EMPTY_REFERENCE);
      }
      var namespace := ko.namespace;
      if arr.namespace != None && arr.namespace.value != "" {
        namespace := arr.namespace.value;
      }
      error := GetReferencedResourceState(cluster, Name(namespace, arr.name.value));
      if error != None {
        return;
      }
      ghost var a := cluster(Name(namespace, arr.name.value)).value;
      assert ResolvesTo(cluster, ko.namespace, ko.spec, a);
      ko.spec := ko.spec.(certificateAuthorityARN := cluster(Name(namespace, arr.name.value)).value.metadata.value.arn);
    }
  }

  /** Both the reference and the ARN it stands for are given. */
  predicate Ambiguous(spec: Spec) {
    spec.certificateAuthorityRef.Some? && spec.certificateAuthorityARN.Some?
  }

  /** `ResolveReferences` works on the passed resource itself; an ambiguous Spec is reported, but only
      after its reference has been resolved. */
  method ResolveReferences(cluster: Cluster, ko: Certificate) returns (result: Certificate, hasReferences: bool, error: Option<Error>)
    modifies ko`spec
    ensures result == ko
    ensures hasReferences == ReferenceOf(old(ko.spec)).Some?
    ensures Resolution(cluster, ko.namespace, old(ko.spec), ko.spec)
    ensures var failed := ResolutionError(cluster, ko.namespace, old(ko.spec));
            error == if failed.Some? then failed else if Ambiguous(old(ko.spec)) then Some(REFERENCE_AND_ID) else None
  {
    var invalid := if Ambiguous(ko.spec) then Some(REFERENCE_AND_ID) else None;
    hasReferences, error := ResolveReferenceForCertificateAuthorityARN(cluster, ko);
    if error != None {
      return ko, hasReferences, error;
    }
    return ko, hasReferences, invalid;
  }

  /** What resolution may do to a Spec: write the ARN of the authority its reference resolves to, and
      nothing if it does not resolve. */
  ghost predicate Resolution(cluster: Cluster, namespace: string, before: Spec, after: Spec) {
    if exists a :: ResolvesTo(cluster, namespace, before, a) then
      exists a :: ResolvesTo(cluster, namespace, before, a) && after == before.(certificateAuthorityARN := ArnOf(a))
    else after == before
  }

  function Cleared(spec: Spec): Spec {
    if spec.certificateAuthorityRef.Some? then spec.(certificateAuthorityARN := None) else spec
  }

  method ClearResolvedReferences(res: Certificate) returns (ko: Certificate)
    ensures ko.Value() == res.Value().(spec := Cleared(res.spec))
    ensures fresh(ko) && (forall t :: t in ko.tags ==> fresh(t)) && (forall c :: c in ko.conditions ==> fresh(c))
  {
    ko := res.DeepCopy();
    ghost var copied := ko.Value();
    if ko.spec.certificateAuthorityRef != None {
      ko.spec := ko.spec.(certificateAuthorityARN := None);
    }
    assert ko.Value() == copied.(spec := ko.spec);
  }

  /** Resolving and clearing gives the Spec back, whether resolution succeeds or not, exactly when the
      Spec does not name the authority twice. */
  lemma ResolveThenClear(cluster: Cluster, namespace: string, before: Spec, after: Spec)
    requires Resolution(cluster, namespace, before, after)
    ensures Cleared(after) == before <==> !Ambiguous(before)
  {
  }

  /** Which check fails first: the read, a True Terminal condition, no True ResourceSynced condition, no ARN. */
  lemma StateErrorExactly(answer: Result<Authority>)
    ensures StateError(answer) ==
            match answer
            case Err(e) => Some(e)
            case Ok(Authority(metadata, conditions)) =>
              if exists i :: 0 <= i < |conditions| && conditions[i].kind == Terminal && conditions[i].status == True
              then Some(REFERENCE_TERMINAL)
              else if forall i :: 0 <= i < |conditions| && conditions[i].kind == ResourceSynced ==> conditions[i].status != True
              then Some(REFERENCE_NOT_SYNCED)
              else match metadata
                   case Some(Metadata(Some(_), _, _)) => None
                   case _ => Some(REFERENCE_MISSING_ARN)
  {
  }

  /** How resolving a Spec's reference ends: without an error exactly when there is none, or when the
      authority it names is read, has no True Terminal condition, has a True ResourceSynced condition,
      and has an ARN. */
  lemma ResolvesExactly(cluster: Cluster, namespace: string, spec: Spec)
    ensures ResolutionError(cluster, namespace, spec).None? <==>
            match spec.certificateAuthorityRef
            case Some(ReferenceWrapper(Some(ResourceReference(Some(name), given)))) =>
              var answer := cluster(Name(if given.None? || given == Some("") then namespace else given.value, name));
              && name != "" && answer.Ok?
              && (forall i :: 0 <= i < |answer.value.conditions| ==>
                    answer.value.conditions[i].kind == Terminal ==> answer.value.conditions[i].status != True)
              && (exists i :: 0 <= i < |answer.value.conditions| &&
                    answer.value.conditions[i].kind == ResourceSynced && answer.value.conditions[i].status == True)
              && answer.value.metadata.Some? && answer.value.metadata.value.arn.Some?
            case Some(ReferenceWrapper(Some(_))) => false
            case _ => true
    ensures ResolutionError(cluster, namespace, spec).None? <==>
            ReferenceOf(spec).None? || exists a :: ResolvesTo(cluster, namespace, spec, a)
  {
    var r := ReferenceOf(spec);
    if r.Some? && ResolutionError(cluster, namespace, spec).None? {
      assert ResolvesTo(cluster, namespace, spec, cluster(Pointed(namespace, r.value)).value);
    }
  }

  /** An ARN that resolution put there is that of the authority the reference names, in the namespace it
      gives or else the resource's own. */
  lemma ResolvedArnIsUsable(cluster: Cluster, namespace: string, before: Spec, after: Spec)
    requires Resolution(cluster, namespace, before, after) && after != before
    ensures after == before.(certificateAuthorityARN := after.certificateAuthorityARN) && after.certificateAuthorityARN.Some?
    ensures match before.certificateAuthorityRef
            case Some(ReferenceWrapper(Some(ResourceReference(Some(name), given)))) =>
              var answer := cluster(Name(if given.None? || given == Some("") then namespace else given.value, name));
              && answer.Ok? && !C.HasTrue(answer.value.conditions, Terminal) && C.HasTrue(answer.value.conditions, ResourceSynced)
              && answer.value.metadata.Some? && answer.value.metadata.value.arn == after.certificateAuthorityARN
            case _ => false
  {
  }

  /** Clearing takes the ARN away exactly when there is a reference, and nothing else. */
  lemma ClearedExactly(spec: Spec)
    ensures Cleared(spec).certificateAuthorityARN == if spec.certificateAuthorityRef.Some? then None else spec.certificateAuthorityARN
    ensures Cleared(spec).(certificateAuthorityARN := spec.certificateAuthorityARN) == spec
  {
  }
}
