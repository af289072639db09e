/** The payloads of a create: `newImportCertificateInput`, `newCreateRequestPayload` and the two
    settings `sdkCreate` adds to the latter. */
module Requests {
  import opened Values
  import opened Objects

  method PayloadTags(from: seq<Tag>) returns (tags: seq<TagValue>)
    ensures tags == TagValues(from)
  {
    tags := [];
    for i := 0 to |from|
      invariant tags == TagValues(from)[..i]
    {
      tags := tags + [TagValue(from[i].key, from[i].value)];
    }
  }

  /* ----- importing ----- */

  /** What reading a Secret entry answers: its value, or any error. */
  type SecretReader = SecretReference -> Result<string>

  /** `SecretValueFromReference`: nothing for a nil reference. */
  function SecretValue(secrets: SecretReader, reference: Option<SecretReference>): Result<string> {
    if reference.None? then Ok("") else secrets(reference.value)
  }

  function Needed(error: Error): Error {
    Wrapped("requeue needed", error)
  }

  /** `ImportCertificateInput`; an absent body is an empty one. */
  datatype ImportInput = ImportInput(
    certificateArn: Option<string>,
    certificate: string,
    chain: string,
    privateKey: string,
    tags: seq<TagValue>)

  /** What is imported for a resource, or the first Secret that cannot be read. */
  function ImportPayload(spec: Spec, tags: seq<TagValue>, secrets: SecretReader): Result<ImportInput> {
    var key := SecretValue(secrets, spec.privateKey);
    var body := SecretValue(secrets, spec.certificate);
    var chain := SecretValue(secrets, spec.certificateChain);
    if key.Err? then Err(Needed(key.error))
    else if body.Err? then Err(Needed(body.error))
    else if chain.Err? then Err(Needed(chain.error))
    else Ok(ImportInput(spec.certificateARN, body.value, chain.value, key.value, tags))
  }

  method NewImportCertificateInput(r: Certificate, secrets: SecretReader) returns (input: Result<ImportInput>)
    ensures input == ImportPayload(r.spec, TagValues(r.tags), secrets)
  {
    var res := ImportInput(None, "", "", "", []);
    if r.spec.certificateARN != None {
      res := res.(certificateArn := r.spec.certificateARN);
    }
    var tags := PayloadTags(r.tags);
    res := res.(tags := tags);
    var tmpSecret := SecretValue(secrets, r.spec.privateKey);
    if tmpSecret.Err? {
      return Err(Needed(tmpSecret.error));
    }
    if tmpSecret.value != "" {
      res := res.(privateKey := tmpSecret.value);
    }
    tmpSecret := SecretValue(secrets, r.spec.certificate);
    if tmpSecret.Err? {
      return Err(Needed(tmpSecret.error));
    }
    if tmpSecret.value != "" {
      res := res.(certificate := tmpSecret.value);
    }
    tmpSecret := SecretValue(secrets, r.spec.certificateChain);
    if tmpSecret.Err? {
      return Err(Needed(tmpSecret.error));
    }
    if tmpSecret.value != "" {
      res := res.(chain := tmpSecret.value);
    }
    input := Ok(res);
  }

  /* ----- requesting ----- */

  datatype RequestOptions = RequestOptions(loggingPreference: string, exportEnabled: bool)

  /** `RequestCertificateInput`; the empty string stands for an enumeration that is not set. */
  datatype RequestInput = RequestInput(
    certificateAuthorityARN: Option<string>,
    domainName: Option<string>,
    domainValidationOptions: Option<seq<ValidationOption>>,
    keyAlgorithm: string,
    options: Option<RequestOptions>,
    subjectAlternativeNames: Option<seq<string>>,
    tags: seq<TagValue>,
    validationMethod: string)

  function OrEmpty(s: Option<string>): string {
    if s.Some? then s.value else ""
  }

  /** A certificate that is exported and not issued by a private authority. */
  predicate PublicExport(spec: Spec) {
    spec.exportTo.Some? && spec.certificateAuthorityARN.None? && spec.certificateAuthorityRef.None?
  }

  function RequestedOptions(spec: Spec): Option<RequestOptions> {
    if spec.options.None? && !PublicExport(spec) then None
    else Some(RequestOptions(
                if spec.options.Some? then OrEmpty(spec.options.value.loggingPreference) else "",
                PublicExport(spec)))
  }

  /** What is asked of ACM for a resource. */
  function Payload(spec: Spec, tags: seq<TagValue>): RequestInput {
    RequestInput(
      spec.certificateAuthorityARN,
      spec.domainName,
      spec.domainValidationOptions,
      OrEmpty(spec.keyAlgorithm),
      RequestedOptions(spec),
      spec.subjectAlternativeNames,
      tags,
      "DNS")
  }

  method NewCreateRequestPayload(r: Certificate) returns (res: RequestInput)
    ensures res == Payload(r.spec, TagValues(r.tags)).(
                     validationMethod := "",
                     options := if r.spec.options.Some?
                                then Some(RequestOptions(OrEmpty(r.spec.options.value.loggingPreference), false))
                                else None)
  {
    res := RequestInput(None, None, None, "", None, None, [], "");
    if r.spec.certificateAuthorityARN != None {
      res := res.(certificateAuthorityARN := r.spec.certificateAuthorityARN);
    }
    if r.spec.domainName != None {
      res := res.(domainName := r.spec.domainName);
    }
    if r.spec.domainValidationOptions != None {
      var options := RequestedValidations(r.spec.domainValidationOptions.value);
      res := res.(domainValidationOptions := Some(options));
    }
    if r.spec.keyAlgorithm != None {
      res := res.(keyAlgorithm := r.spec.keyAlgorithm.value);
    }
    if r.spec.options != None {
      var f4 := RequestOptions("", false);
      if r.spec.options.value.loggingPreference != None {
        f4 := f4.(loggingPreference := r.spec.options.value.loggingPreference.value);
      }
      res := res.(options := Some(f4));
    }
    if r.spec.subjectAlternativeNames != None {
      res := res.(subjectAlternativeNames := r.spec.subjectAlternativeNames);
    }
    var tags := PayloadTags(r.tags);
    res := res.(tags := tags);
  }

  method RequestedValidations(from: seq<ValidationOption>) returns (options: seq<ValidationOption>)
    ensures options == from
  {
    options := [];
    for i := 0 to |from|
      invariant options == from[..i]
    {
      options := options + [ValidationOption(from[i].domainName, from[i].validationDomain)];
    }
  }

  /** The payload as `sdkCreate` sends it: DNS validation, and exporting enabled for a public certificate. */
  method CompletePayload(desired: Certificate) returns (input: RequestInput)
    ensures input == Payload(desired.spec, TagValues(desired.tags))
  {
    input := NewCreateRequestPayload(desired);
    input := input.(validationMethod := "DNS");
    if desired.spec.exportTo != None && desired.spec.certificateAuthorityARN == None && desired.spec.certificateAuthorityRef == None {
      if input.options == None {
        input := input.(options := Some(RequestOptions("", false)));
      }
      input := input.(options := Some(input.options.value.(exportEnabled := true)));
    }
  }
}
