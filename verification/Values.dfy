/** The values a Certificate resource is made of, as they are read off the objects of
    module Objects: every nilable pointer of the API types is an Option here. */
module Values {

  datatype Option<+T> = None | Some(value: T)

  datatype Result<+T> = Ok(value: T) | Err(error: Error)

  /** Errors as chains: `Wrapped` and `TerminalError` are the links `errors.As` walks through. */
  datatype Error =
    | Api(code: string, text: string)
    | SecretTypeNotSupported
    | SecretNotFound
    | NotFound
    | ResourceTerminal
    | TerminalError(cause: Error)
    | Wrapped(text: string, cause: Error)
    | Plain(text: string)

  datatype TagValue = TagValue(key: Option<string>, value: Option<string>)

  datatype ConditionKind = Terminal | Recoverable | ResourceSynced | OtherKind(name: string)

  datatype ConditionStatus = True | False | Unknown

  datatype ConditionValue = ConditionValue(
    kind: ConditionKind,
    status: ConditionStatus,
    message: Option<string>,
    reason: Option<string>)

  datatype SecretReference = SecretReference(namespace: string, name: string, key: string)

  datatype ResourceReference = ResourceReference(name: Option<string>, namespace: Option<string>)

  /** The wrapper around a reference: `from` is nil when the wrapper is empty. */
  datatype ReferenceWrapper = ReferenceWrapper(from: Option<ResourceReference>)

  datatype ValidationOption = ValidationOption(domainName: Option<string>, validationDomain: Option<string>)

  datatype CertificateOptions = CertificateOptions(loggingPreference: Option<string>)

  /** Everything of a Certificate's Spec except the tag list. */
  datatype Spec = Spec(
    certificate: Option<SecretReference>,
    certificateARN: Option<string>,
    certificateAuthorityARN: Option<string>,
    certificateAuthorityRef: Option<ReferenceWrapper>,
    certificateChain: Option<SecretReference>,
    domainName: Option<string>,
    domainValidationOptions: Option<seq<ValidationOption>>,
    exportTo: Option<SecretReference>,
    keyAlgorithm: Option<string>,
    options: Option<CertificateOptions>,
    privateKey: Option<SecretReference>,
    subjectAlternativeNames: Option<seq<string>>)

  datatype Metadata = Metadata(arn: Option<string>, owner: Option<string>, region: Option<string>)

  /** The read-only observations the controller only ever copies, by name. */
  datatype Details = Details(fields: map<string, string>)

  /** Everything of a Certificate's Status except the conditions. */
  datatype Status = Status(
    metadata: Option<Metadata>,
    issuedAt: Option<int>,
    serial: Option<string>,
    status: Option<string>,
    origin: Option<string>,
    details: Details)

  datatype CertificateValue = CertificateValue(
    namespace: string,
    spec: Spec,
    tags: seq<TagValue>,
    status: Status,
    conditions: seq<ConditionValue>)

  /** The account and region a resource manager works for. */
  datatype Identity = Identity(account: string, region: string)

  /** The status after `setStatusDefaults`: missing metadata, region and owner are filled in. */
  function WithDefaults(status: Status, rm: Identity): (r: Status)
    ensures r.metadata.Some?
    ensures status.metadata.None? ==> r.metadata == Some(Metadata(None, Some(rm.account), Some(rm.region)))
    ensures status.metadata.Some? ==>
              var before, after := status.metadata.value, r.metadata.value;
              && after.arn == before.arn
              && after.region == (if before.region.Some? then before.region else Some(rm.region))
              && after.owner == (if before.owner.Some? then before.owner else Some(rm.account))
    ensures r.(metadata := status.metadata) == status
  {
    var m := if status.metadata.Some? then status.metadata.value else Metadata(None, None, None);
    var m := if m.region.None? then m.(region := Some(rm.region)) else m;
    var m := if m.owner.None? then m.(owner := Some(rm.account)) else m;
    status.(metadata := Some(m))
  }

  /** The resource's recorded ARN. */
  function RecordedArn(status: Status): Option<string> {
    if status.metadata.Some? then status.metadata.value.arn else None
  }

  /** An enumeration of the SDK, where the empty string stands for "not set". */
  function NonEmpty(s: string): Option<string> {
    if s == "" then None else Some(s)
  }
}
