/** The ACM side of one certificate, the Secrets of the cluster, and `exportCertificate`, which
    carries a certificate from one to the other in two writes. */
module Export {
  import opened Values
  import opened Objects

  /* ----- what ACM holds ----- */

  /** One issue of a certificate: every renewal is a new one. The body is the PEM certificate. */
  datatype Issue = Issue(issuedAt: Option<int>, serial: string, body: string, chain: Option<string>, key: string)

  datatype SdkValidation = SdkValidation(domainName: Option<string>, validationDomain: Option<string>, rest: string)

  /** What `DescribeCertificate` reports beyond status, issue and options. */
  datatype Facts = Facts(
    certificateAuthorityARN: Option<string>,
    domainName: Option<string>,
    validations: Option<seq<SdkValidation>>,
    keyAlgorithm: string,
    subjectAlternativeNames: Option<seq<string>>,
    origin: string,
    details: Details)

  /** The certificate in ACM; `issues` grows at the end, `options` is its logging preference. */
  datatype AcmCertificate = AcmCertificate(
    arn: string,
    issues: seq<Issue>,
    status: string,
    options: Option<string>,
    facts: Facts)

  function Current(acm: AcmCertificate): Option<Issue> {
    if acm.issues == [] then None else Some(acm.issues[|acm.issues| - 1])
  }

  /** An encrypted private key: only the passphrase it was sealed with opens it. */
  datatype Sealed = Sealed(plain: string, passphrase: string)

  datatype ExportOutput = ExportOutput(certificate: string, chain: Option<string>, privateKey: Sealed)

  const NOT_ISSUED := Api("RequestInProgressException", "the certificate has not been issued")

  /** The ExportCertificate call: the current issue, its key sealed with the caller's passphrase. */
  function ExportCall(acm: AcmCertificate, passphrase: string, failure: Option<Error>): Result<ExportOutput> {
    if failure.Some? then Err(failure.value)
    else if Current(acm).None? then Err(NOT_ISSUED)
    else
      var issue := Current(acm).value;
      Ok(ExportOutput(issue.body, issue.chain, Sealed(issue.key, passphrase)))
  }

  /** `DecryptPrivateKey`, with its cryptography left abstract. */
  function Decrypt(key: Sealed, passphrase: string, failure: Option<Error>): Result<string> {
    if failure.Some? then Err(failure.value)
    else if key.passphrase != passphrase then Err(Plain("failed to decrypt PEM block"))
    else Ok(key.plain)
  }

  /* ----- the Secrets of the cluster ----- */

  /** One entry per Secret key. */
  type SecretMap = map<SecretReference, string>

  /** A write that returns an error may have landed all the same. */
  datatype WriteFailure = WriteFailure(error: Error, landed: bool)

  function ErrorOf(failure: Option<WriteFailure>): Option<Error> {
    if failure.Some? then Some(failure.value.error) else None
  }

  predicate Lands(failure: Option<WriteFailure>) {
    failure.None? || failure.value.landed
  }

  function Write(secrets: SecretMap, entry: SecretReference, value: string, failure: Option<WriteFailure>): SecretMap {
    if Lands(failure) then secrets[entry := value] else secrets
  }

  class SecretStore {
    var entries: SecretMap

    constructor (entries: SecretMap)
      ensures this.entries == entries
    {
      this.entries := entries;
    }

    method WriteToSecret(value: string, namespace: string, name: string, key: string, failure: Option<WriteFailure>) returns (error: Option<Error>)
      modifies this
      ensures error == ErrorOf(failure)
      ensures entries == Write(old(entries), SecretReference(namespace, name, key), value, failure)
    {
      error := ErrorOf(failure);
      if Lands(failure) {
        entries := entries[SecretReference(namespace, name, key) := value];
      }
    }
  }

  /* ----- exportCertificate ----- */

  /** What goes wrong in an export: at each of its five points, nothing or an error. */
  datatype ExportFaults = ExportFaults(
    passphrase: Result<string>,
    request: Option<Error>,
    writeCertificate: Option<WriteFailure>,
    decrypt: Option<Error>,
    writeKey: Option<WriteFailure>)

  /** The panic of an export that finds no key algorithm, as far as it counts as an error. */
  const NIL_DEREFERENCE := Plain("invalid memory address or nil pointer dereference")

  const TLS_KEY := "tls.key"

  /** The certificate and its chain, as written to the Secret. */
  function FullChain(body: string, chain: Option<string>): string {
    if chain.Some? && chain.value != "" then body + chain.value else body
  }

  /** The Secret entry an export target names; the resource's namespace stands in for an empty one. */
  function Target(namespace: string, to: SecretReference, key: string): SecretReference {
    SecretReference(if to.namespace != "" then to.namespace else namespace, to.name, key)
  }

  function CertificateEntry(c: CertificateValue): SecretReference
    requires c.spec.exportTo.Some?
  {
    Target(c.namespace, c.spec.exportTo.value, c.spec.exportTo.value.key)
  }

  function KeyEntry(c: CertificateValue): SecretReference
    requires c.spec.exportTo.Some?
  {
    Target(c.namespace, c.spec.exportTo.value, TLS_KEY)
  }

  datatype ExportResult = ExportResult(secrets: SecretMap, error: Option<Error>)

  /** The Secrets after an export, and its error: the panic included, with what was written before it. */
  function ExportEffect(c: CertificateValue, acm: AcmCertificate, secrets: SecretMap, f: ExportFaults): ExportResult {
    if c.spec.exportTo.None? then ExportResult(secrets, None)
    else if f.passphrase.Err? then ExportResult(secrets, Some(f.passphrase.error))
    else
      var response := ExportCall(acm, f.passphrase.value, f.request);
      if response.Err? then ExportResult(secrets, Some(response.error))
      else
        var written := Write(secrets, CertificateEntry(c), FullChain(response.value.certificate, response.value.chain), f.writeCertificate);
        if f.writeCertificate.Some? then ExportResult(written, Some(f.writeCertificate.value.error))
        else if c.spec.keyAlgorithm.None? then ExportResult(written, Some(NIL_DEREFERENCE))
        else
          var key := Decrypt(response.value.privateKey, f.passphrase.value, f.decrypt);
          if key.Err? then ExportResult(written, Some(key.error))
          else ExportResult(Write(written, KeyEntry(c), key.value, f.writeKey), ErrorOf(f.writeKey))
  }

  /** An export that gets as far as decrypting the key dereferences the key algorithm: it does not panic. */
  predicate Decryptable(spec: Spec, acm: AcmCertificate, f: ExportFaults) {
    spec.exportTo.Some? && f.passphrase.Ok? && ExportCall(acm, f.passphrase.value, f.request).Ok? && f.writeCertificate.None? ==>
      spec.keyAlgorithm.Some?
  }

  method ExportCertificate(r: Certificate, acm: AcmCertificate, store: SecretStore, f: ExportFaults) returns (error: Option<Error>)
    requires Decryptable(r.spec, acm, f)
    modifies store
    ensures ExportResult(store.entries, error) == ExportEffect(r.Value(), acm, old(store.entries), f)
  {
    if r.spec.exportTo == None {
      return None;
    }
    var to := r.spec.exportTo.value;
    if f.passphrase.Err? {
      return Some(f.passphrase.error);
    }
    var passphrase := f.passphrase.value;
    var resp := ExportCall(acm, passphrase, f.request);
    if resp.Err? {
      return Some(resp.error);
    }
    var certificateChain := resp.value.certificate;
    if resp.value.chain != None && resp.value.chain.value != "" {
      certificateChain := certificateChain + resp.value.chain.value;
    }
    if to.namespace != "" {
      error := store.WriteToSecret(certificateChain, to.namespace, to.name, to.key, f.writeCertificate);
      if error != None {
        return;
      }
    } else {
      error := store.WriteToSecret(certificateChain, r.namespace, to.name, to.key, f.writeCertificate);
      if error != None {
        return;
      }
    }
    assert r.spec.keyAlgorithm.Some?;
    var decryptedKey := Decrypt(resp.value.privateKey, passphrase, f.decrypt);
    if decryptedKey.Err? {
      return Some(decryptedKey.error);
    }
    if to.namespace != "" {
      error := store.WriteToSecret(decryptedKey.value, to.namespace, to.name, TLS_KEY, f.writeKey);
    } else {
      error := store.WriteToSecret(decryptedKey.value, r.namespace, to.name, TLS_KEY, f.writeKey);
    }
  }

  /* ----- what an export leaves behind ----- */

  /** The Secret holds certificate and key of this one issue. */
  predicate HoldsPair(c: CertificateValue, secrets: SecretMap, issue: Issue)
    requires c.spec.exportTo.Some?
  {
    && CertificateEntry(c) in secrets && secrets[CertificateEntry(c)] == FullChain(issue.body, issue.chain)
    && KeyEntry(c) in secrets && secrets[KeyEntry(c)] == issue.key
  }

  /** A successful export writes both entries from the current issue and touches nothing else; they
      are a pair of the issue unless the certificate was directed at the key's own entry. */
  lemma ExportWritesThePair(c: CertificateValue, acm: AcmCertificate, secrets: SecretMap, f: ExportFaults)
    requires c.spec.exportTo.Some? && ExportEffect(c, acm, secrets, f).error.None?
    ensures Current(acm).Some?
    ensures var after, issue := ExportEffect(c, acm, secrets, f).secrets, Current(acm).value;
            && (HoldsPair(c, after, issue) <==>
                c.spec.exportTo.value.key != TLS_KEY || FullChain(issue.body, issue.chain) == issue.key)
            && CertificateEntry(c).namespace == KeyEntry(c).namespace && CertificateEntry(c).name == KeyEntry(c).name
            && after - {CertificateEntry(c), KeyEntry(c)} == secrets - {CertificateEntry(c), KeyEntry(c)}
  {
  }

  /** A failed export has written nothing, or the certificate entry, or both entries, and that from
      the current issue. */
  lemma FailedExportLeaves(c: CertificateValue, acm: AcmCertificate, secrets: SecretMap, f: ExportFaults)
    requires c.spec.exportTo.Some? && ExportEffect(c, acm, secrets, f).error.Some?
    ensures var after := ExportEffect(c, acm, secrets, f).secrets;
            || after == secrets
            || (Current(acm).Some? &&
                var issue := Current(acm).value;
                var written := secrets[CertificateEntry(c) := FullChain(issue.body, issue.chain)];
                after == written || after == written[KeyEntry(c) := issue.key])
  {
  }

  /** Without a key algorithm an export never writes the key: one that nothing else stops panics after
      its first write. */
  lemma NoKeyAlgorithmNoKey(c: CertificateValue, acm: AcmCertificate, secrets: SecretMap, f: ExportFaults)
    requires c.spec.exportTo.Some? && c.spec.exportTo.value.key != TLS_KEY && c.spec.keyAlgorithm.None?
    ensures var e := ExportEffect(c, acm, secrets, f);
            && e.error.Some?
            && e.secrets - {CertificateEntry(c)} == secrets - {CertificateEntry(c)}
            && (!Decryptable(c.spec, acm, f) ==>
                  && e.error == Some(NIL_DEREFERENCE) && Current(acm).Some?
                  && e.secrets == secrets[CertificateEntry(c) := FullChain(Current(acm).value.body, Current(acm).value.chain)])
  {
  }

  /** The export stops between its two writes: the certificate is written and the key is not. */
  predicate Torn(c: CertificateValue, acm: AcmCertificate, f: ExportFaults) {
    && Touches(c, acm, f)
    && (f.writeCertificate.Some? || c.spec.keyAlgorithm.None? || f.decrypt.Some? || !Lands(f.writeKey))
  }

  /** The export gets as far as writing the certificate. */
  predicate Touches(c: CertificateValue, acm: AcmCertificate, f: ExportFaults) {
    && c.spec.exportTo.Some? && f.passphrase.Ok? && ExportCall(acm, f.passphrase.value, f.request).Ok?
    && Lands(f.writeCertificate)
  }

  /** An export touches the Secret exactly as these two say, whatever error it returns: all of the
      current issue's pair, its certificate alone, or nothing. */
  lemma ExportTouches(c: CertificateValue, acm: AcmCertificate, secrets: SecretMap, f: ExportFaults)
    ensures Touches(c, acm, f) ==> Current(acm).Some?
    ensures var after := ExportEffect(c, acm, secrets, f).secrets;
            if !Touches(c, acm, f) then after == secrets
            else
              var issue := Current(acm).value;
              var written := secrets[CertificateEntry(c) := FullChain(issue.body, issue.chain)];
              after == if Torn(c, acm, f) then written else written[KeyEntry(c) := issue.key]
  {
  }

  /* ----- the entries, spelled out ----- */

  /** Where a successful export writes, and what: in the target's namespace if it names one, else in the
      resource's, the Secret of the target's name holds the last issue's body and chain under the
      target's key, and its key under "tls.key"; nothing else in the cluster changes. */
  lemma ExportedEntries(c: CertificateValue, acm: AcmCertificate, secrets: SecretMap, f: ExportFaults)
    requires c.spec.exportTo.Some? && ExportEffect(c, acm, secrets, f).error.None?
    ensures acm.issues != []
    ensures var to, issue := c.spec.exportTo.value, acm.issues[|acm.issues| - 1];
            var namespace := if to.namespace == "" then c.namespace else to.namespace;
            var after := ExportEffect(c, acm, secrets, f).secrets;
            var certificate, key := SecretReference(namespace, to.name, to.key), SecretReference(namespace, to.name, "tls.key");
            && key in after && after[key] == issue.key
            && certificate in after
            && (to.key != "tls.key" ==>
                  after[certificate] == if issue.chain.Some? then issue.body + issue.chain.value else issue.body)
            && forall e :: e != certificate && e != key ==> (e in after <==> e in secrets) && (e in secrets ==> after[e] == secrets[e])
  {
    var issue := acm.issues[|acm.issues| - 1];
    assert issue.chain == Some("") ==> issue.body + issue.chain.value == issue.body;
  }

  /** An export that fails for each reason in turn: the first of these it meets is its error. */
  lemma ExportFailsExactly(c: CertificateValue, acm: AcmCertificate, secrets: SecretMap, f: ExportFaults)
    ensures ExportEffect(c, acm, secrets, f).error ==
            if c.spec.exportTo.None? then None
            else if f.passphrase.Err? then Some(f.passphrase.error)
            else if f.request.Some? then f.request
            else if acm.issues == [] then Some(NOT_ISSUED)
            else if f.writeCertificate.Some? then Some(f.writeCertificate.value.error)
            else if c.spec.keyAlgorithm.None? then Some(NIL_DEREFERENCE)
            else if f.decrypt.Some? then f.decrypt
            else if f.writeKey.Some? then Some(f.writeKey.value.error)
            else None
  {
  }
}
