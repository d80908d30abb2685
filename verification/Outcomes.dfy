/** Errors and outcomes shared by the verifiers. */
module Outcomes {
  import opened Wrappers
  import opened Clock
  import opened Fingerprints
  import opened Names
  import opened Badges
  import opened TrustScope
  import Dane

  datatype TlogError =
    | HttpError | NotFound | InvalidResponse | ServiceUnavailable | StatusUnknown
    | InvalidUrl | InvalidHeader | UntrustedDomain
  {
    predicate IsUnavailable() {
      HttpError? || ServiceUnavailable? || StatusUnknown?
    }
  }

  /** The answers of the log that settle a question; the others say that it could not be asked or answered. */
  ghost predicate LogAnswered(e: TlogError) {
    e in {NotFound, InvalidResponse, InvalidUrl, InvalidHeader, UntrustedDomain}
  }

  lemma LogErrorsSplit(e: TlogError)
    ensures e.IsUnavailable() <==> e in {HttpError, ServiceUnavailable, StatusUnknown}
    ensures e.IsUnavailable() <==> !LogAnswered(e)
  {}

  datatype CertError = NoCommonName | NoUriSan

  /** Failures of SCITT artifacts; `MalformedArtifact` stands for all CBOR and COSE structure errors. */
  datatype ScittError =
    | MalformedArtifact
    | InvalidProtectedHeader
    | SignatureInvalid
    | UnknownKeyId(kid: KeyId)
    | IssuerMismatch
    | HostMismatch(expected: string, actual: string)
    | InvalidReceiptIdentity
    | IdentityBinding
    | InvalidMerkleProof
    | TokenExpired(exp: int, now: int)
    | MissingTokenField
    | TerminalStatus(status: BadgeStatus)

  datatype AnsError =
    | DnsLookup(dns: Dane.DnsError)
    | TransparencyLog(tlog: TlogError)
    | Certificate(cert: CertError)
    | Parse(parse: ParseError)
    | Verification
    | Scitt(scitt: ScittError)
  {
    predicate MayUseStale() {
      (DnsLookup? && dns.IsUnavailable()) || (TransparencyLog? && tlog.IsUnavailable())
    }
  }

  /** The verified claims of a status token. */
  datatype StatusPayload = StatusPayload(
    agentId: string,
    status: BadgeStatus,
    exp: I64,
    name: AnsName,
    identityCerts: seq<Fingerprint>,
    serverCerts: seq<Fingerprint>)

  datatype VerifiedToken = VerifiedToken(payload: StatusPayload, keyId: KeyId)

  datatype Tier = StatusTokenVerified | FullScitt

  datatype Outcome =
    | Verified(badge: Badge, fingerprint: Fingerprint)
    | NotAnsAgent
    | InvalidStatus(badge: Badge)
    | FingerprintMismatch(expected: string, actual: string, badge: Badge)
    | HostnameMismatch(expected: string, actual: string, badge: Badge)
    | AnsNameMismatch(expected: string, actual: string, badge: Badge)
    | DnsFailure(dns: Dane.DnsError)
    | TlogFailure(tlog: TlogError)
    | CertFailure(cert: CertError)
    | ParseFailure(parse: ParseError)
    | DaneFailure(dane: Dane.DaneError)
    | ScittVerified(token: VerifiedToken, tier: Tier, fingerprint: Fingerprint, enhanced: Option<Badge>)
    | ScittFailure(scitt: ScittError)
  {
    predicate IsSuccess() {
      Verified? || ScittVerified?
    }
  }
}
