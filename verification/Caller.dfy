/** Three-proof caller authentication: possession proof, status token and receipt, then the single-use commit. */
module Caller {
  import opened Wrappers
  import opened Text
  import opened Clock
  import opened Fingerprints
  import opened Names
  import opened Badges
  import opened TrustScope
  import opened Outcomes
  import opened PopProof
  import opened ReplayCache
  import Scitt = ScittArtifacts

  const DEFAULT_STATUS_SKEW := Duration(60, 0)

  datatype Request = Request(
    proof: string, token: Option<Bytes>, receipt: Option<Bytes>, httpMethod: string, url: string)

  /** `content` is what the caller's hashing callback would return. */
  datatype Options = Options(
    requireReceipt: bool,
    allowedNames: seq<string>,
    trustedAuthorities: seq<string>,
    popSkew: Option<Duration>,
    statusSkew: Option<Duration>,
    now: int,
    accessToken: Option<string>,
    content: Result<Fingerprint, PopError>)

  datatype CallerIdentity = CallerIdentity(name: AnsName, agentId: string, fingerprint: Fingerprint, jkt: string)

  /** An identity that passed every check, and what the single-use memory is asked to record. */
  datatype Admission = Admission(identity: CallerIdentity, replayKey: string, replayExp: int)

  /** What the artifact cache answers to the three lookups of one call. */
  datatype Hits = Hits(cert: Option<LeafCert>, token: Option<StatusPayload>, receipt: Option<Scitt.Receipt>)

  const NO_HITS := Hits(None, None, None)

  // ----- steps -----

  function StatusSkew(opts: Options): Duration {
    if opts.statusSkew.Some? then opts.statusSkew.value else DEFAULT_STATUS_SKEW
  }

  predicate AuthorityTrusted(lib: Library, trusted: seq<string>, authority: string) {
    exists a :: a in trusted && lib.normalizeAuthority(a) == authority
  }

  /** Checks made before any proof work. */
  function Preflight(lib: Library, req: Request, opts: Options): Result<(), PopError> {
    var _ :- if opts.trustedAuthorities == [] then Ok(())
             else
               var authority :- OrElse(lib.authority(req.url), MalformedProof);
               Require(AuthorityTrusted(lib, opts.trustedAuthorities, authority), UntrustedAuthority);
    var _ :- Require(req.proof != "", MissingHeaders);
    var _ :- Require(req.token.Some?, MissingHeaders);
    Require(opts.requireReceipt ==> req.receipt.Some?, MissingHeaders)
  }

  function ProofOf(lib: Library, req: Request, opts: Options, hit: Option<LeafCert>): Result<ProofResult, PopError> {
    VerifyProof(lib, req.proof, req.httpMethod, req.url, opts.accessToken, opts.popSkew, opts.now, hit)
  }

  function FreshToken(lib: Library, keys: KeyStore, token: Bytes, skew: Duration, now: int)
    : Result<StatusPayload, PopError>
  {
    match Scitt.VerifyTokenAt(lib.scitt, keys, token, skew, now)
    case Ok(verified) => Ok(verified.payload)
    case Err(_) => Err(StatusInvalid)
  }

  /** A cached payload is used only while it is unexpired; otherwise the token is verified again. */
  function TokenPayload(
    lib: Library, keys: KeyStore, token: Bytes, skew: Duration, now: int, hit: Option<StatusPayload>)
    : Result<StatusPayload, PopError>
  {
    if hit.Some? && Scitt.Unexpired(hit.value, skew, now) then Ok(hit.value)
    else FreshToken(lib, keys, token, skew, now)
  }

  function FreshReceipt(lib: Library, keys: KeyStore, receipt: Bytes): Result<Scitt.Receipt, PopError> {
    match Scitt.VerifyReceipt(lib.scitt, keys, receipt)
    case Ok(r) => Ok(r)
    case Err(_) => Err(ReceiptInvalid)
  }

  function ReceiptOf(lib: Library, keys: KeyStore, receipt: Option<Bytes>, hit: Option<Scitt.Receipt>)
    : Result<Option<Scitt.Receipt>, PopError>
  {
    if receipt.None? then Ok(None)
    else if hit.Some? then Ok(hit)
    else
      var r :- FreshReceipt(lib, keys, receipt.value);
      Ok(Some(r))
  }

  function AllowedHost(lib: Library, entry: string): string {
    match ParseAnsName(entry)
    case Ok(name) => Lower(name.fqdn)
    case Err(_) => Lower(lib.trim(entry))
  }

  function BindCaller(
    lib: Library, proof: ProofResult, status: StatusPayload, receipt: Option<Scitt.Receipt>, opts: Options)
    : Result<CallerIdentity, PopError>
  {
    var _ :- Require(proof.fingerprint in status.identityCerts, BindingFailed);
    var certName :- OrElse(proof.name, BindingFailed);
    var _ :- Require(EqIgnoreCase(certName.fqdn, status.name.fqdn), BindingFailed);
    var _ :- if receipt.None? then Ok(())
             else
               match Scitt.BindReceiptToStatus(lib.scitt, receipt.value, status, None)
               case Ok(_) => Ok(())
               case Err(e) => Err(if e.IdentityBinding? then BindingFailed else ReceiptInvalid);
    var _ :- Require(opts.allowedNames == [] || exists entry :: entry in opts.allowedNames
                       && AllowedHost(lib, entry) == Lower(status.name.fqdn), ExpectedPeerMismatch);
    Ok(CallerIdentity(status.name, status.agentId, proof.fingerprint, proof.jkt))
  }

  /** Everything up to the commit, given what the artifact cache answers. */
  function Authenticate(lib: Library, keys: KeyStore, req: Request, opts: Options, hits: Hits)
    : Result<Admission, PopError>
  {
    var _ :- Preflight(lib, req, opts);
    var proof :- ProofOf(lib, req, opts, hits.cert);
    var status :- TokenPayload(lib, keys, req.token.value, StatusSkew(opts), opts.now, hits.token);
    var receipt :- ReceiptOf(lib, keys, req.receipt, hits.receipt);
    var identity :- BindCaller(lib, proof, status, receipt, opts);
    var content :- opts.content;
    var _ :- Require(proof.contentDigest == content, ContentBindingMismatch);
    Ok(Admission(identity, lib.digestText(proof.jti), proof.replayExp))
  }

  function CommitVerdict(answer: Answer, identity: CallerIdentity): Result<CallerIdentity, PopError> {
    match answer
    case Stored => Ok(identity)
    case Replayed => Err(Replay)
    case Expired => Err(ProofStale)
    case Full => Err(PopError.ReplayCacheFull)
  }

  /** A whole call: the commit is the last step and the only one that touches the single-use memory. */
  function VerifyCall(
    lib: Library, keys: KeyStore, req: Request, opts: Options, hits: Hits, index: Index, cap: nat, commitAt: int)
    : (Index, Result<CallerIdentity, PopError>)
  {
    match Authenticate(lib, keys, req, opts, hits)
    case Err(e) => (index, Err(e))
    case Ok(admission) =>
      var (index', answer) := Check(index, cap, commitAt, admission.replayKey, admission.replayExp);
      (index', CommitVerdict(answer, admission.identity))
  }

  // ----- the artifact cache -----

  datatype Artifacts = Artifacts(
    tokens: map<Fingerprint, StatusPayload>, receipts: map<Fingerprint, Scitt.Receipt>, certs: map<Fingerprint, LeafCert>)

  const NO_ARTIFACTS := Artifacts(map[], map[], map[])

  function Find<V>(entries: map<Fingerprint, V>, key: Fingerprint): Option<V> {
    if key in entries then Some(entries[key]) else None
  }

  function CertKey(lib: Library, x5c: string): Fingerprint {
    lib.scitt.sha256(lib.octets(x5c))
  }

  function CachedCert(lib: Library, cache: Artifacts, jws: string): Option<LeafCert> {
    match DecodeProof(lib, jws)
    case Ok(p) => Find(cache.certs, CertKey(lib, p.x5c))
    case Err(_) => None
  }

  function CachedToken(lib: Library, cache: Artifacts, keys: KeyStore, token: Option<Bytes>): Option<StatusPayload> {
    if token.None? then None else Find(cache.tokens, ArtifactKey(lib.scitt.sha256, keys, token.value))
  }

  function CachedReceipt(lib: Library, cache: Artifacts, keys: KeyStore, receipt: Option<Bytes>): Option<Scitt.Receipt> {
    if receipt.None? then None else Find(cache.receipts, ArtifactKey(lib.scitt.sha256, keys, receipt.value))
  }

  function LookUp(lib: Library, cache: Artifacts, keys: KeyStore, req: Request): Hits {
    Hits(CachedCert(lib, cache, req.proof), CachedToken(lib, cache, keys, req.token),
         CachedReceipt(lib, cache, keys, req.receipt))
  }

  /** A call may add a freshly parsed certificate, a freshly verified token and a freshly verified receipt. */
  function StoreCert(lib: Library, cache: Artifacts, x5c: string): Artifacts {
    match lib.leaf(x5c)
    case Ok(leaf) => cache.(certs := cache.certs[CertKey(lib, x5c) := leaf])
    case Err(_) => cache
  }

  function StoreToken(lib: Library, cache: Artifacts, keys: KeyStore, token: Bytes, skew: Duration, now: int): Artifacts {
    match FreshToken(lib, keys, token, skew, now)
    case Ok(payload) => cache.(tokens := cache.tokens[ArtifactKey(lib.scitt.sha256, keys, token) := payload])
    case Err(_) => cache
  }

  function StoreReceipt(lib: Library, cache: Artifacts, keys: KeyStore, receipt: Bytes): Artifacts {
    match FreshReceipt(lib, keys, receipt)
    case Ok(r) => cache.(receipts := cache.receipts[ArtifactKey(lib.scitt.sha256, keys, receipt) := r])
    case Err(_) => cache
  }

  function AfterCert(lib: Library, cache: Artifacts, req: Request): Artifacts {
    match DecodeProof(lib, req.proof)
    case Ok(p) => if CertKey(lib, p.x5c) in cache.certs then cache else StoreCert(lib, cache, p.x5c)
    case Err(_) => cache
  }

  function AfterToken(lib: Library, cache: Artifacts, keys: KeyStore, token: Bytes, opts: Options): Artifacts {
    var hit := CachedToken(lib, cache, keys, Some(token));
    if hit.Some? && Scitt.Unexpired(hit.value, StatusSkew(opts), opts.now) then cache
    else StoreToken(lib, cache, keys, token, StatusSkew(opts), opts.now)
  }

  function AfterReceipt(lib: Library, cache: Artifacts, keys: KeyStore, receipt: Option<Bytes>): Artifacts {
    if receipt.None? || CachedReceipt(lib, cache, keys, receipt).Some? then cache
    else StoreReceipt(lib, cache, keys, receipt.value)
  }

  class VerifiedArtifactCache {
    var tokens: map<Fingerprint, StatusPayload>
    var receipts: map<Fingerprint, Scitt.Receipt>
    var certs: map<Fingerprint, LeafCert>

    function State(): Artifacts
      reads this
    {
      Artifacts(tokens, receipts, certs)
    }

    constructor ()
      ensures State() == NO_ARTIFACTS
    {
      tokens, receipts, certs := map[], map[], map[];
    }

    /** The certificate of a decoded proof, parsed at most once per entry. */
    method LeafFor(lib: Library, p: Presented) returns (leaf: Result<LeafCert, PopError>)
      modifies this
      ensures var hit := Find(old(certs), CertKey(lib, p.x5c));
              leaf == if hit.Some? then Ok(hit.value) else lib.leaf(p.x5c)
      ensures State() == if CertKey(lib, p.x5c) in old(certs) then old(State()) else StoreCert(lib, old(State()), p.x5c)
    {
      var key := CertKey(lib, p.x5c);
      if key in certs {
        return Ok(certs[key]);
      }
      leaf := lib.leaf(p.x5c);
      if leaf.Ok? {
        certs := certs[key := leaf.value];
      }
    }

    /** A hit skips the signature, never the expiry. */
    method StatusPayloadFor(lib: Library, keys: KeyStore, token: Bytes, opts: Options)
      returns (payload: Result<StatusPayload, PopError>)
      modifies this
      ensures payload == TokenPayload(lib, keys, token, StatusSkew(opts), opts.now,
                                      CachedToken(lib, old(State()), keys, Some(token)))
      ensures State() == AfterToken(lib, old(State()), keys, token, opts)
    {
      var key := ArtifactKey(lib.scitt.sha256, keys, token);
      if key in tokens && Scitt.Unexpired(tokens[key], StatusSkew(opts), opts.now) {
        return Ok(tokens[key]);
      }
      payload := FreshToken(lib, keys, token, StatusSkew(opts), opts.now);
      if payload.Ok? {
        tokens := tokens[key := payload.value];
      }
    }

    method ReceiptFor(lib: Library, keys: KeyStore, receipt: Option<Bytes>)
      returns (r: Result<Option<Scitt.Receipt>, PopError>)
      modifies this
      ensures r == ReceiptOf(lib, keys, receipt, CachedReceipt(lib, old(State()), keys, receipt))
      ensures State() == AfterReceipt(lib, old(State()), keys, receipt)
    {
      if receipt.None? {
        return Ok(None);
      }
      var key := ArtifactKey(lib.scitt.sha256, keys, receipt.value);
      if key in receipts {
        return Ok(Some(receipts[key]));
      }
      var verified := FreshReceipt(lib, keys, receipt.value);
      if verified.Err? {
        return Err(verified.error);
      }
      receipts := receipts[key := verified.value];
      return Ok(Some(verified.value));
    }
  }

  /** What a call leaves in the artifact cache. */
  function AfterCall(lib: Library, cache: Artifacts, keys: KeyStore, req: Request, opts: Options): Artifacts {
    var hits := LookUp(lib, cache, keys, req);
    var proof := ProofOf(lib, req, opts, hits.cert);
    if Preflight(lib, req, opts).Err? then cache
    else
      var s1 := AfterCert(lib, cache, req);
      if proof.Err? then s1
      else
        var s2 := AfterToken(lib, s1, keys, req.token.value, opts);
        if TokenPayload(lib, keys, req.token.value, StatusSkew(opts), opts.now, hits.token).Err? then s2
        else AfterReceipt(lib, s2, keys, req.receipt)
  }

  /** The certificate entry of a decoded proof, with or without a cache. */
  method LeafOf(lib: Library, p: Presented, artifacts: VerifiedArtifactCache?) returns (leaf: Result<LeafCert, PopError>)
    modifies artifacts
    ensures var hit := if artifacts == null then None else old(Find(artifacts.certs, CertKey(lib, p.x5c)));
            leaf == if hit.Some? then Ok(hit.value) else lib.leaf(p.x5c)
    ensures artifacts != null ==>
              artifacts.State() == if CertKey(lib, p.x5c) in old(artifacts.certs) then old(artifacts.State())
                                   else StoreCert(lib, old(artifacts.State()), p.x5c)
  {
    if artifacts == null {
      return lib.leaf(p.x5c);
    }
    leaf := artifacts.LeafFor(lib, p);
  }

  method StatusOf(lib: Library, keys: KeyStore, token: Bytes, opts: Options, artifacts: VerifiedArtifactCache?)
    returns (payload: Result<StatusPayload, PopError>)
    modifies artifacts
    ensures var hit := if artifacts == null then None else old(CachedToken(lib, artifacts.State(), keys, Some(token)));
            payload == TokenPayload(lib, keys, token, StatusSkew(opts), opts.now, hit)
    ensures artifacts != null ==> artifacts.State() == AfterToken(lib, old(artifacts.State()), keys, token, opts)
  {
    if artifacts == null {
      return FreshToken(lib, keys, token, StatusSkew(opts), opts.now);
    }
    payload := artifacts.StatusPayloadFor(lib, keys, token, opts);
  }

  method CheckedReceipt(lib: Library, keys: KeyStore, receipt: Option<Bytes>, artifacts: VerifiedArtifactCache?)
    returns (r: Result<Option<Scitt.Receipt>, PopError>)
    modifies artifacts
    ensures var hit := if artifacts == null then None else old(CachedReceipt(lib, artifacts.State(), keys, receipt));
            r == ReceiptOf(lib, keys, receipt, hit)
    ensures artifacts != null ==> artifacts.State() == AfterReceipt(lib, old(artifacts.State()), keys, receipt)
  {
    if artifacts == null {
      return ReceiptOf(lib, keys, receipt, None);
    }
    r := artifacts.ReceiptFor(lib, keys, receipt);
  }

  /** The hits of a call that runs alone; none without a cache. */
  ghost function HitsIn(lib: Library, artifacts: VerifiedArtifactCache?, keys: KeyStore, req: Request): Hits
    reads artifacts
  {
    if artifacts == null then NO_HITS else LookUp(lib, artifacts.State(), keys, req)
  }

  /** The call itself, over the single-use memory and, if one is given, the artifact cache. */
  method VerifyCallerWithContent(
    lib: Library, keys: KeyStore, req: Request, opts: Options,
    artifacts: VerifiedArtifactCache?, replay: MemoryReplayCache, commitAt: int)
    returns (result: Result<CallerIdentity, PopError>)
    requires replay.Valid()
    modifies artifacts, replay
    ensures replay.Valid()
    ensures (replay.index, result)
            == VerifyCall(lib, keys, req, opts, old(HitsIn(lib, artifacts, keys, req)),
                          old(replay.index), replay.maxEntries, commitAt)
    ensures artifacts != null ==> artifacts.State() == AfterCall(lib, old(artifacts.State()), keys, req, opts)
  {
    ghost var hits := HitsIn(lib, artifacts, keys, req);
    var preflight := Preflight(lib, req, opts);
    if preflight.Err? {
      return Err(preflight.error);
    }
    var p := DecodeProof(lib, req.proof);
    if p.Err? {
      return Err(p.error);
    }
    var leaf := LeafOf(lib, p.value, artifacts);
    if leaf.Err? {
      return Err(leaf.error);
    }
    var skew := EffectiveSkew(opts.popSkew).Seconds();
    var proof := JudgeProof(lib, p.value, leaf.value, req.httpMethod, req.url, opts.accessToken, skew, opts.now);
    assert proof == ProofOf(lib, req, opts, hits.cert);
    if proof.Err? {
      return Err(proof.error);
    }
    var status := StatusOf(lib, keys, req.token.value, opts, artifacts);
    if status.Err? {
      return Err(status.error);
    }
    var receipt := CheckedReceipt(lib, keys, req.receipt, artifacts);
    if receipt.Err? {
      return Err(receipt.error);
    }
    var identity := BindCaller(lib, proof.value, status.value, receipt.value, opts);
    if identity.Err? {
      return Err(identity.error);
    }
    if opts.content.Err? {
      return Err(opts.content.error);
    }
    if proof.value.contentDigest != opts.content.value {
      return Err(ContentBindingMismatch);
    }
    var answer := replay.CheckAndStore(lib.digestText(proof.value.jti), proof.value.replayExp, commitAt);
    return CommitVerdict(answer, identity.value);
  }
}
