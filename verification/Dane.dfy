/** DANE/TLSA binding of a certificate to DNS (section 2.1 of RFC 6698). */
module Dane {
  import opened Wrappers
  import opened Fingerprints
  import opened Badges

  datatype Policy = Disabled | ValidateIfPresent | Required

  datatype Usage = CaConstraint | ServiceCertificateConstraint | TrustAnchorAssertion | DomainIssuedCertificate
  datatype Selector = FullCertificate | SubjectPublicKeyInfo
  datatype MatchingType = NoHash | Sha256 | Sha512

  datatype TlsaRecord = TlsaRecord(usage: Usage, selector: Selector, matching: MatchingType, data: Bytes)

  datatype DnsError = NotFound | LookupFailed | Timeout | DnssecFailed | InvalidFormat | ResolverError {
    predicate IsUnavailable() {
      LookupFailed? || Timeout?
    }
  }

  /** The answers of DNS that settle a question, NXDOMAIN among them. */
  ghost predicate DnsAnswered(e: DnsError) {
    e in {NotFound, DnssecFailed, InvalidFormat, ResolverError}
  }

  lemma DnsErrorsSplit(e: DnsError)
    ensures e.IsUnavailable() <==> e in {LookupFailed, Timeout}
    ensures e.IsUnavailable() <==> !DnsAnswered(e)
  {}

  datatype DaneError = NoTlsaRecords | FingerprintMismatch | InvalidRecord | DnsLookup(error: DnsError)
  datatype DaneResult = Verified(record: TlsaRecord) | NoRecords | Mismatch | DnssecFailure | Skipped

  /** The two digest functions of the matching types. */
  datatype Digests = Digests(sha256: Bytes -> Fingerprint, sha512: Bytes -> Bytes)

  function MatchesFingerprint(record: TlsaRecord, fp: Fingerprint): Option<bool> {
    if !record.usage.DomainIssuedCertificate? || !record.selector.FullCertificate? || !record.matching.Sha256? then None
    else Some(record.data == fp)
  }

  function MatchesCert(d: Digests, record: TlsaRecord, cert: CertIdentity): Option<bool> {
    if cert.rawDer.None? || cert.spkiDer.None? then MatchesFingerprint(record, cert.fingerprint)
    else if !record.usage.DomainIssuedCertificate? then None
    else
      var selected := if record.selector.FullCertificate? then cert.rawDer.value else cert.spkiDer.value;
      var expected := match record.matching
        case NoHash => selected
        case Sha256 => d.sha256(selected)
        case Sha512 => d.sha512(selected);
      Some(record.data == expected)
  }

  predicate IsAcceptable(result: DaneResult, policy: Policy) {
    match result
    case Verified(_) => true
    case Skipped => true
    case NoRecords => !policy.Required?
    case Mismatch => false
    case DnssecFailure => false
  }

  /** The association data a record must carry for this certificate, by selector and matching type. */
  ghost predicate Associates(d: Digests, record: TlsaRecord, der: Bytes, spki: Bytes) {
    var content := match record.selector case FullCertificate => der case SubjectPublicKeyInfo => spki;
    match record.matching
    case NoHash => record.data == content
    case Sha256 => record.data == d.sha256(content)
    case Sha512 => record.data == d.sha512(content)
  }

  /** A domain-issued record with this certificate's data; without the certificate's bytes only a "3 0 1" record counts. */
  ghost predicate Binds(d: Digests, record: TlsaRecord, cert: CertIdentity) {
    if cert.rawDer.Some? && cert.spkiDer.Some?
    then record.usage == DomainIssuedCertificate && Associates(d, record, cert.rawDer.value, cert.spkiDer.value)
    else record == TlsaRecord(DomainIssuedCertificate, FullCertificate, Sha256, cert.fingerprint)
  }

  lemma MatchMeans(d: Digests, record: TlsaRecord, cert: CertIdentity)
    ensures MatchesCert(d, record, cert) == Some(true) <==> Binds(d, record, cert)
  {}

  /** A record the check can evaluate: domain-issued and, without the certificate's bytes, of kind "3 0 1". */
  ghost predicate Evaluable(record: TlsaRecord, cert: CertIdentity) {
    && record.usage == DomainIssuedCertificate
    && (cert.rawDer.None? || cert.spkiDer.None? ==> record.selector == FullCertificate && record.matching == Sha256)
  }

  lemma EvaluableMeans(d: Digests, record: TlsaRecord, cert: CertIdentity)
    ensures MatchesCert(d, record, cert).Some? <==> Evaluable(record, cert)
  {}

  /** The loop that `verify_dane` and `verify_dane_cert` share, over an arbitrary record comparison. */
  method VerifyWith(records: seq<TlsaRecord>, policy: Policy, matches: TlsaRecord -> Option<bool>)
    returns (result: Result<DaneResult, DaneError>)
    ensures result == Decide(records, policy, matches)
  {
    if policy.Disabled? {
      return Ok(Skipped);
    }
    if records == [] {
      return if policy.Required? then Err(NoTlsaRecords) else Ok(NoRecords);
    }
    var hasUnsupported := false;
    for i := 0 to |records|
      invariant FirstMatch(records, matches) == FirstMatch(records[i..], matches)
      invariant hasUnsupported <==> exists j :: 0 <= j < i && matches(records[j]).None?
    {
      match matches(records[i]) {
        case Some(true) => return Ok(Verified(records[i]));
        case Some(false) =>
        case None => hasUnsupported := true;
      }
      assert records[i..][1..] == records[i + 1..];
    }
    return if hasUnsupported then Err(InvalidRecord) else Err(FingerprintMismatch);
  }

  function FirstMatch(records: seq<TlsaRecord>, matches: TlsaRecord -> Option<bool>): Option<TlsaRecord> {
    if records == [] then None
    else if matches(records[0]) == Some(true) then Some(records[0])
    else FirstMatch(records[1..], matches)
  }

  ghost function Decide(records: seq<TlsaRecord>, policy: Policy, matches: TlsaRecord -> Option<bool>)
    : Result<DaneResult, DaneError>
  {
    if policy.Disabled? then Ok(Skipped)
    else if records == [] then if policy.Required? then Err(NoTlsaRecords) else Ok(NoRecords)
    else if FirstMatch(records, matches).Some? then Ok(Verified(FirstMatch(records, matches).value))
    else if exists r :: r in records && matches(r).None? then Err(InvalidRecord)
    else Err(FingerprintMismatch)
  }

  ghost predicate Accepts(result: Result<DaneResult, DaneError>, policy: Policy) {
    result.Ok? && IsAcceptable(result.value, policy)
  }

  /** What acceptance means, without the loop: the order of the records cannot matter. */
  ghost predicate SomeRecordMatches(records: seq<TlsaRecord>, matches: TlsaRecord -> Option<bool>) {
    exists r :: r in records && matches(r) == Some(true)
  }

  lemma {:induction false} FirstMatchExists(records: seq<TlsaRecord>, matches: TlsaRecord -> Option<bool>)
    ensures FirstMatch(records, matches).Some? <==> SomeRecordMatches(records, matches)
    ensures FirstMatch(records, matches).Some? ==>
              FirstMatch(records, matches).value in records && matches(FirstMatch(records, matches).value) == Some(true)
  {
    if records != [] {
      FirstMatchExists(records[1..], matches);
      assert forall r :: r in records <==> r == records[0] || r in records[1..];
    }
  }

  lemma AcceptanceMeans(records: seq<TlsaRecord>, policy: Policy, matches: TlsaRecord -> Option<bool>)
    ensures Accepts(Decide(records, policy, matches), policy)
            <==> policy.Disabled?
                 || (policy.ValidateIfPresent? && records == [])
                 || SomeRecordMatches(records, matches)
  {
    FirstMatchExists(records, matches);
  }

  /**
   * When the identity's fingerprint is the SHA-256 of its DER, whatever the fingerprint-only check
   * accepts the certificate check accepts too.
   */
  lemma CertCheckExtendsFingerprintCheck(d: Digests, records: seq<TlsaRecord>, cert: CertIdentity, policy: Policy)
    requires cert.rawDer.Some? ==> cert.fingerprint == d.sha256(cert.rawDer.value)
    requires Accepts(Decide(records, policy, r => MatchesFingerprint(r, cert.fingerprint)), policy)
    ensures Accepts(Decide(records, policy, r => MatchesCert(d, r, cert)), policy)
  {
    var byPrint := r => MatchesFingerprint(r, cert.fingerprint);
    var byCert := r => MatchesCert(d, r, cert);
    AcceptanceMeans(records, policy, byPrint);
    AcceptanceMeans(records, policy, byCert);
    if SomeRecordMatches(records, byPrint) {
      var r :| r in records && byPrint(r) == Some(true);
      assert byCert(r) == Some(true);
    }
  }
}
