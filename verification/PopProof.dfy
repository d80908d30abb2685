/** Checking a DPoP proof (section 4.3 of RFC 9449) signed by an agent's identity certificate. */
module PopProof {
  import opened Wrappers
  import opened Text
  import opened Clock
  import opened Fingerprints
  import opened Names
  import opened TrustScope
  import Scitt = ScittArtifacts
  import ReplayCache

  const MAX_PROOF_SIZE: nat := 8192
  const MAX_JTI_SIZE: nat := 128
  const DEFAULT_POP_SKEW := Duration(120, 0)
  const REPLAY_GRACE_SECS: int := 5
  const ANS_PROFILE_REVISION: nat := 1
  const COORD_LEN: nat := 32
  const P256_SIG_LEN: nat := 64

  datatype PopError =
    | MalformedProof | UnsupportedAlg | HttpBindingMismatch | ProofStale | Replay | ReplayCacheFull
    | SignatureInvalid | CertInvalid | KeyMismatch | TokenBindingMismatch | ContentBindingMismatch
    | UnsupportedProfile | BindingFailed | StatusInvalid | ReceiptInvalid | MissingHeaders
    | ExpectedPeerMismatch | UntrustedAuthority

  datatype Jwk = Jwk(kty: string, crv: string, x: string, y: string)
  datatype Header = Header(typ: string, alg: string, jwk: Jwk, x5c: seq<string>)

  datatype Payload = Payload(
    htm: string, htu: string, iat: I64, jti: string, ath: Option<string>, profile: Option<nat>, contentDigest: string)

  /** What the certificate entry of a proof determines by itself. */
  datatype LeafCert = LeafCert(
    key: Point, fingerprint: Fingerprint, jkt: string, name: Option<AnsName>, notBefore: I64, notAfter: I64)

  /** The base64, JSON, X.509, URL, ECDSA and hash libraries; `digestText` is base64url of SHA-256. */
  datatype Library = Library(
    base64Url: string -> Option<Bytes>,
    header: Bytes -> Option<Header>,
    payload: Bytes -> Option<Payload>,
    leaf: string -> Result<LeafCert, PopError>,
    octets: string -> Bytes,
    ecdsa: (Point, string, Bytes) -> bool,
    digestText: string -> string,
    htu: string -> Option<string>,
    authority: string -> Option<string>,
    normalizeAuthority: string -> string,
    trim: string -> string,
    scitt: Scitt.Library)

  datatype Presented = Presented(
    signingInput: string, signature: string, jwk: Jwk, x5c: string, payload: Payload, contentDigest: Fingerprint)

  datatype ProofResult = ProofResult(
    fingerprint: Fingerprint, jkt: string, name: Option<AnsName>, jti: string, replayExp: int, contentDigest: Fingerprint)

  function OrElse<T>(value: Option<T>, error: PopError): Result<T, PopError> {
    if value.Some? then Ok(value.value) else Err(error)
  }

  function Require(condition: bool, error: PopError): Result<(), PopError> {
    if condition then Ok(()) else Err(error)
  }

  // ----- decoding -----

  function AcceptHeader(h: Header): Result<(), PopError> {
    if h.typ != "dpop+jwt" || h.alg != "ES256" then Err(UnsupportedAlg)
    else if |h.x5c| != 1 then Err(CertInvalid)
    else Ok(())
  }

  /** Size, compact structure, pinned header, payload, profile revision and content digest, in this order. */
  function DecodeProof(lib: Library, jws: string): (r: Result<Presented, PopError>) {
    var _ :- Require(|jws| <= MAX_PROOF_SIZE, MalformedProof);
    var parts := Split(jws, '.');
    if |parts| != 3 || parts[0] == "" || parts[1] == "" || parts[2] == "" then Err(MalformedProof)
    else
      var rawHeader :- OrElse(lib.base64Url(parts[0]), MalformedProof);
      var header :- OrElse(lib.header(rawHeader), MalformedProof);
      var _ :- AcceptHeader(header);
      var rawPayload :- OrElse(lib.base64Url(parts[1]), MalformedProof);
      var payload :- OrElse(lib.payload(rawPayload), MalformedProof);
      var _ :- Require(payload.profile in {None, Some(ANS_PROFILE_REVISION)}, UnsupportedProfile);
      var digest :- OrElse(lib.base64Url(payload.contentDigest), MalformedProof);
      if |digest| != 32 then Err(MalformedProof)
      else Ok(Presented(parts[0] + "." + parts[1], parts[2], header.jwk, header.x5c[0], payload, digest))
  }

  /** Three non-empty segments of a bounded text, the pinned header with one certificate, and a known profile. */
  ghost predicate WellFormedProof(lib: Library, jws: string, head: string, body: string, p: Presented) {
    && |jws| <= 8192
    && head != "" && body != "" && p.signature != "" && '.' !in head && '.' !in body && '.' !in p.signature
    && jws == head + "." + body + "." + p.signature && p.signingInput == head + "." + body
    && lib.base64Url(head).Some? && lib.header(lib.base64Url(head).value) == Some(Header("dpop+jwt", "ES256", p.jwk, [p.x5c]))
    && lib.base64Url(body).Some? && lib.payload(lib.base64Url(body).value) == Some(p.payload)
    && (p.payload.profile == None || p.payload.profile == Some(1))
    && lib.base64Url(p.payload.contentDigest) == Some(p.contentDigest)
  }

  lemma DecodedMeans(lib: Library, jws: string, p: Presented)
    ensures DecodeProof(lib, jws) == Ok(p) <==> exists head, body :: WellFormedProof(lib, jws, head, body, p)
  {
    if DecodeProof(lib, jws) == Ok(p) {
      var parts := Split(jws, '.');
      assert parts == [parts[0], parts[1], parts[2]];
      SplitInThree(jws, '.', parts[0], parts[1], parts[2]);
      var header := lib.header(lib.base64Url(parts[0]).value).value;
      assert header.x5c == [header.x5c[0]];
      assert WellFormedProof(lib, jws, parts[0], parts[1], p);
    }
    if head, body :| WellFormedProof(lib, jws, head, body, p) {
      SplitInThree(jws, '.', head, body, p.signature);
    }
  }

  // ----- single checks -----

  function EffectiveSkew(skew: Option<Duration>): Duration {
    if skew.Some? && skew.value.Positive() then skew.value else DEFAULT_POP_SKEW
  }

  function CheckValidity(leaf: LeafCert, now: int, skew: int): Result<(), PopError> {
    Require(SatSub(leaf.notBefore, skew) <= now <= SatAdd(leaf.notAfter, skew), CertInvalid)
  }

  function MatchJwk(lib: Library, jwk: Jwk, key: Point): Result<(), PopError> {
    var _ :- Require(jwk.kty == "EC" && jwk.crv == "P-256", UnsupportedAlg);
    var x :- OrElse(lib.base64Url(jwk.x), MalformedProof);
    var y :- OrElse(lib.base64Url(jwk.y), MalformedProof);
    var _ :- Require(|x| == COORD_LEN && |y| == COORD_LEN, MalformedProof);
    Require(x == key[1..33] && y == key[33..65], KeyMismatch)
  }

  function CheckSignature(lib: Library, key: Point, signingInput: string, signature: string): Result<(), PopError> {
    var sig :- OrElse(lib.base64Url(signature), MalformedProof);
    var _ :- Require(|sig| == P256_SIG_LEN, SignatureInvalid);
    Require(lib.ecdsa(key, signingInput, sig), SignatureInvalid)
  }

  function CheckHttpBinding(lib: Library, payload: Payload, method_: string, url: string): Result<(), PopError> {
    var _ :- Require(payload.htm == method_, HttpBindingMismatch);
    var want :- OrElse(lib.htu(url), MalformedProof);
    Require(payload.htu == want, HttpBindingMismatch)
  }

  function CheckTokenBinding(lib: Library, payload: Payload, accessToken: Option<string>): Result<(), PopError> {
    match (accessToken, payload.ath)
    case (None, None) => Ok(())
    case (Some(token), Some(ath)) => Require(ath == lib.digestText(token), TokenBindingMismatch)
    case _ => Err(TokenBindingMismatch)
  }

  function CheckFreshness(iat: int, now: int, skew: int): Result<(), PopError> {
    var _ :- Require(iat != 0, MalformedProof);
    var delta := SatSub(now, iat);
    Require(-skew <= delta <= skew, ProofStale)
  }

  function ReplayExp(iat: int, skew: int): int {
    SatAdd(SatAdd(iat, skew), REPLAY_GRACE_SECS)
  }

  // ----- the whole check -----

  /** Everything after the certificate entry is parsed; nothing is recorded. */
  function JudgeProof(
    lib: Library, p: Presented, leaf: LeafCert, method_: string, url: string,
    accessToken: Option<string>, skew: int, now: int): Result<ProofResult, PopError>
  {
    var _ :- CheckValidity(leaf, now, skew);
    var _ :- MatchJwk(lib, p.jwk, leaf.key);
    var _ :- CheckSignature(lib, leaf.key, p.signingInput, p.signature);
    var _ :- CheckHttpBinding(lib, p.payload, method_, url);
    var _ :- CheckTokenBinding(lib, p.payload, accessToken);
    var _ :- CheckFreshness(p.payload.iat, now, skew);
    var _ :- Require(0 < |p.payload.jti| <= MAX_JTI_SIZE, MalformedProof);
    Ok(ProofResult(leaf.fingerprint, leaf.jkt, leaf.name, p.payload.jti, ReplayExp(p.payload.iat, skew), p.contentDigest))
  }

  function VerifyProof(
    lib: Library, jws: string, method_: string, url: string, accessToken: Option<string>,
    skew: Option<Duration>, now: int, hit: Option<LeafCert>): Result<ProofResult, PopError>
  {
    var p :- DecodeProof(lib, jws);
    var leaf :- if hit.Some? then Ok(hit.value) else lib.leaf(p.x5c);
    JudgeProof(lib, p, leaf, method_, url, accessToken, EffectiveSkew(skew).Seconds(), now)
  }

  // ----- what acceptance means -----

  ghost predicate Fresh(iat: int, now: int, skew: int) {
    iat != 0 && iat - skew <= now && (now <= iat + skew || skew == I64_MAX)
  }

  /** The saturating comparison is the exact window, except that the largest skew has no past bound. */
  lemma FreshnessExact(iat: int, now: int, skew: int)
    requires IsI64(iat) && IsI64(now) && 0 <= skew <= I64_MAX
    ensures CheckFreshness(iat, now, skew).Ok? <==> Fresh(iat, now, skew)
  {}

  /** The proof was signed for this request, by the key of this certificate, within both windows. */
  ghost predicate ProofEvidence(
    lib: Library, p: Presented, leaf: LeafCert, method_: string, url: string,
    accessToken: Option<string>, skew: int, now: int)
  {
    && leaf.notBefore - skew <= now <= leaf.notAfter + skew
    && p.jwk.kty == "EC" && p.jwk.crv == "P-256"
    && lib.base64Url(p.jwk.x) == Some(leaf.key[1..33]) && lib.base64Url(p.jwk.y) == Some(leaf.key[33..65])
    && (exists sig :: lib.base64Url(p.signature) == Some(sig) && |sig| == 64 && lib.ecdsa(leaf.key, p.signingInput, sig))
    && p.payload.htm == method_ && lib.htu(url) == Some(p.payload.htu)
    && (match accessToken case None => p.payload.ath == None case Some(token) => p.payload.ath == Some(lib.digestText(token)))
    && Fresh(p.payload.iat, now, skew)
    && 1 <= |p.payload.jti| <= 128
  }

  lemma JudgementMeans(
    lib: Library, p: Presented, leaf: LeafCert, method_: string, url: string,
    accessToken: Option<string>, skew: int, now: int)
    requires IsI64(p.payload.iat) && IsI64(now) && 0 <= skew <= I64_MAX
    ensures JudgeProof(lib, p, leaf, method_, url, accessToken, skew, now).Ok?
            <==> ProofEvidence(lib, p, leaf, method_, url, accessToken, skew, now)
    ensures ProofEvidence(lib, p, leaf, method_, url, accessToken, skew, now) ==>
              JudgeProof(lib, p, leaf, method_, url, accessToken, skew, now).value
              == ProofResult(leaf.fingerprint, leaf.jkt, leaf.name, p.payload.jti, ReplayExp(p.payload.iat, skew), p.contentDigest)
  {
    FreshnessExact(p.payload.iat, now, skew);
    assert |leaf.key[1..33]| == 32 && |leaf.key[33..65]| == 32;
  }

  /** The signature is by this key over the signed part. */
  ghost predicate SignedBy(lib: Library, p: Presented, leaf: LeafCert) {
    exists sig :: lib.base64Url(p.signature) == Some(sig) && |sig| == 64 && lib.ecdsa(leaf.key, p.signingInput, sig)
  }

  /** The checks of a decoded proof in their order: the first that fails is the one reported. */
  lemma JudgementFails(
    lib: Library, p: Presented, leaf: LeafCert, method_: string, url: string,
    accessToken: Option<string>, skew: int, now: int)
    requires IsI64(now) && 0 <= skew <= I64_MAX
    ensures var judged := JudgeProof(lib, p, leaf, method_, url, accessToken, skew, now);
            if !(leaf.notBefore - skew <= now <= leaf.notAfter + skew) then judged == Err(CertInvalid)
            else if p.jwk.kty != "EC" || p.jwk.crv != "P-256" then judged == Err(UnsupportedAlg)
            else if lib.base64Url(p.jwk.x) != Some(leaf.key[1..33]) || lib.base64Url(p.jwk.y) != Some(leaf.key[33..65]) then
              judged == Err(MalformedProof) || judged == Err(KeyMismatch)
            else if lib.base64Url(p.signature) == None then judged == Err(MalformedProof)
            else if !SignedBy(lib, p, leaf) then judged == Err(SignatureInvalid)
            else if p.payload.htm != method_ then judged == Err(HttpBindingMismatch)
            else if lib.htu(url) == None then judged == Err(MalformedProof)
            else if lib.htu(url) != Some(p.payload.htu) then judged == Err(HttpBindingMismatch)
            else if (match accessToken case None => p.payload.ath != None case Some(t) => p.payload.ath != Some(lib.digestText(t))) then
              judged == Err(TokenBindingMismatch)
            else if p.payload.iat == 0 then judged == Err(MalformedProof)
            else if !Fresh(p.payload.iat, now, skew) then judged == Err(ProofStale)
            else if !(1 <= |p.payload.jti| <= 128) then judged == Err(MalformedProof)
            else judged.Ok?
  {
    hide CheckFreshness;
    FreshnessExact(p.payload.iat, now, skew);
    StaleIsReported(p.payload.iat, now, skew);
    assert |leaf.key[1..33]| == 32 && |leaf.key[33..65]| == 32;
  }

  lemma StaleIsReported(iat: int, now: int, skew: int)
    ensures CheckFreshness(iat, now, skew).Err? ==> CheckFreshness(iat, now, skew) == Err(if iat == 0 then MalformedProof else ProofStale)
  {}

  // ----- retention -----

  /**
   * Retention covers the window: at every instant at which a proof is fresh its recorded expiry still
   * lies ahead, by the grace period unless the sum saturates.
   */
  lemma RetentionCoversWindow(iat: int, now: int, skew: int)
    requires IsI64(iat) && IsI64(now) && 0 <= skew < I64_MAX && Fresh(iat, now, skew)
    ensures now < ReplayExp(iat, skew) || ReplayExp(iat, skew) == I64_MAX
    ensures now + REPLAY_GRACE_SECS <= I64_MAX ==> now + REPLAY_GRACE_SECS <= ReplayExp(iat, skew)
  {}

  /** A proof accepted at `now` is recorded with an expiry whose bucket deadline fits, when the skew leaves room. */
  lemma RetentionIsEvictable(iat: int, now: int, skew: int)
    requires IsI64(iat) && IsI64(now) && 0 <= skew && Fresh(iat, now, skew)
    requires now + 2 * skew + REPLAY_GRACE_SECS <= ReplayCache.LAST_EVICTABLE
    ensures I64_MIN <= ReplayExp(iat, skew) <= ReplayCache.LAST_EVICTABLE
    ensures ReplayExp(iat, skew) == iat + skew + REPLAY_GRACE_SECS
    ensures ReplayExp(iat, skew) <= now + 2 * skew + REPLAY_GRACE_SECS
  {}
}
