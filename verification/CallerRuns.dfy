/** What caller authentication guarantees over every interleaving of calls that share its two caches. */
module CallerRuns {
  import opened Wrappers
  import opened Text
  import opened Clock
  import opened Fingerprints
  import opened Names
  import opened TrustScope
  import opened Outcomes
  import opened PopProof
  import opened ReplayCache
  import opened ReplaySizing
  import opened Caller
  import Scitt = ScittArtifacts

  // ----- what an admission proves -----

  ghost predicate TrustedRequest(lib: Library, req: Request, opts: Options) {
    opts.trustedAuthorities != [] ==>
      exists a :: a in opts.trustedAuthorities && lib.authority(req.url) == Some(lib.normalizeAuthority(a))
  }

  /** The freshness window the options ask for: whole seconds of a positive skew, otherwise two minutes. */
  ghost function PopWindow(opts: Options): (skew: int)
    ensures 0 <= skew <= I64_MAX
  {
    match opts.popSkew
    case None => 120
    case Some(d) => if d.secs == 0 && d.nanos == 0 then 120 else if d.secs > I64_MAX then I64_MAX else d.secs
  }

  /** The tolerance for expired tokens: as configured, otherwise one minute. */
  ghost function StatusTolerance(opts: Options): nat {
    match opts.statusSkew
    case None => 60
    case Some(d) => d.secs
  }

  /** Until when the use of a proof is recorded. */
  ghost function RecordedUntil(iat: int, skew: int): int {
    if iat + skew + 5 > I64_MAX then I64_MAX else iat + skew + 5
  }

  lemma WindowsMean(opts: Options, iat: I64)
    ensures EffectiveSkew(opts.popSkew).Seconds() == PopWindow(opts)
    ensures StatusSkew(opts).secs == StatusTolerance(opts)
    ensures ReplayExp(iat, PopWindow(opts)) == RecordedUntil(iat, PopWindow(opts))
  {}

  /** An allow-list entry names the host: by the host of an ANS name, or else as it stands. */
  ghost predicate NamesHost(lib: Library, entry: string, host: string) {
    match ParseAnsName(entry)
    case Ok(name) => Lower(name.fqdn) == Lower(host)
    case Err(_) => Lower(lib.trim(entry)) == Lower(host)
  }

  ghost predicate SameAgent(
    lib: Library, keys: KeyStore, req: Request, opts: Options, leaf: LeafCert, status: StatusPayload)
  {
    && leaf.fingerprint in status.identityCerts
    && leaf.name.Some? && Lower(leaf.name.value.fqdn) == Lower(status.name.fqdn)
    && (req.receipt.Some? ==>
          exists r :: Scitt.SignedReceipt(lib.scitt, keys, req.receipt.value, r)
                      && Scitt.SameRegistration(lib.scitt, r, status, None))
    && (opts.allowedNames != [] ==>
          exists entry :: entry in opts.allowedNames && NamesHost(lib, entry, status.name.fqdn))
  }

  /** Every binding that an admission stands for, with what it hands to the commit. */
  ghost predicate CallerEvidence(
    lib: Library, keys: KeyStore, req: Request, opts: Options, p: Presented, leaf: LeafCert, status: StatusPayload,
    a: Admission)
  {
    var skew := PopWindow(opts);
    && TrustedRequest(lib, req, opts)
    && req.proof != "" && req.token.Some? && (opts.requireReceipt ==> req.receipt.Some?)
    && DecodeProof(lib, req.proof) == Ok(p) && lib.leaf(p.x5c) == Ok(leaf)
    && ProofEvidence(lib, p, leaf, req.httpMethod, req.url, opts.accessToken, skew, opts.now)
    && (exists t: VerifiedToken :: t.payload == status && Scitt.LiveToken(lib.scitt, keys, req.token.value, StatusTolerance(opts), opts.now, t))
    && SameAgent(lib, keys, req, opts, leaf, status)
    && opts.content == Ok(p.contentDigest)
    && a == Admission(CallerIdentity(status.name, status.agentId, leaf.fingerprint, leaf.jkt),
                      lib.digestText(p.payload.jti), RecordedUntil(p.payload.iat, skew))
  }

  lemma PreflightMeans(lib: Library, req: Request, opts: Options)
    ensures Preflight(lib, req, opts).Ok?
            <==> TrustedRequest(lib, req, opts) && req.proof != "" && req.token.Some?
                 && (opts.requireReceipt ==> req.receipt.Some?)
  {}

  lemma BindingMeans(
    lib: Library, keys: KeyStore, req: Request, opts: Options, proof: ProofResult, leaf: LeafCert, status: StatusPayload,
    receipt: Option<Scitt.Receipt>)
    requires proof.fingerprint == leaf.fingerprint && proof.name == leaf.name && proof.jkt == leaf.jkt
    requires ReceiptOf(lib, keys, req.receipt, None) == Ok(receipt)
    ensures BindCaller(lib, proof, status, receipt, opts).Ok? <==> SameAgent(lib, keys, req, opts, leaf, status)
    ensures SameAgent(lib, keys, req, opts, leaf, status) ==>
              BindCaller(lib, proof, status, receipt, opts).value
              == CallerIdentity(status.name, status.agentId, leaf.fingerprint, leaf.jkt)
  {
    hide Scitt.VerifyReceipt, Scitt.SignedReceipt, ParseAnsName;
    if receipt.Some? {
      Scitt.BindingMeans(lib.scitt, receipt.value, status, None);
      forall r ensures Scitt.SignedReceipt(lib.scitt, keys, req.receipt.value, r) <==> r == receipt.value {
        Scitt.ReceiptMeans(lib.scitt, keys, req.receipt.value, r);
      }
    }
  }

  lemma UnverifiedReceipt(lib: Library, keys: KeyStore, req: Request, opts: Options, leaf: LeafCert, status: StatusPayload)
    requires ReceiptOf(lib, keys, req.receipt, None).Err?
    ensures !SameAgent(lib, keys, req, opts, leaf, status)
  {
    hide Scitt.VerifyReceipt, Scitt.SignedReceipt;
    forall r ensures !Scitt.SignedReceipt(lib.scitt, keys, req.receipt.value, r) {
      Scitt.ReceiptMeans(lib.scitt, keys, req.receipt.value, r);
    }
  }

  lemma TokenMeans(lib: Library, keys: KeyStore, token: Bytes, opts: Options, status: StatusPayload)
    requires IsI64(opts.now)
    ensures FreshToken(lib, keys, token, StatusSkew(opts), opts.now) == Ok(status)
            <==> exists t: VerifiedToken :: t.payload == status && Scitt.LiveToken(lib.scitt, keys, token, StatusTolerance(opts), opts.now, t)
  {
    hide Scitt.VerifyTokenAt, Scitt.LiveToken;
    WindowsMean(opts, 0);
    forall t ensures Scitt.VerifyTokenAt(lib.scitt, keys, token, StatusSkew(opts), opts.now) == Ok(t)
                     <==> Scitt.LiveToken(lib.scitt, keys, token, StatusTolerance(opts), opts.now, t) {
      Scitt.LiveTokenMeans(lib.scitt, keys, token, StatusSkew(opts), opts.now, t);
    }
  }

  /** The evidence for a decoded proof, its certificate and a live token. */
  lemma AdmittedWith(
    lib: Library, keys: KeyStore, req: Request, opts: Options, p: Presented, leaf: LeafCert, status: StatusPayload,
    a: Admission)
    requires IsI64(opts.now) && DecodeProof(lib, req.proof) == Ok(p) && lib.leaf(p.x5c) == Ok(leaf)
    requires req.token.Some? && FreshToken(lib, keys, req.token.value, StatusSkew(opts), opts.now) == Ok(status)
    ensures Authenticate(lib, keys, req, opts, NO_HITS) == Ok(a)
            <==> CallerEvidence(lib, keys, req, opts, p, leaf, status, a)
  {
    hide Preflight, TrustedRequest, DecodeProof, JudgeProof, ProofEvidence, FreshReceipt, BindCaller, SameAgent;
    hide EffectiveSkew, PopWindow, ReplayExp, RecordedUntil, FreshToken, StatusSkew;
    var skew := PopWindow(opts);
    WindowsMean(opts, p.payload.iat);
    TokenMeans(lib, keys, req.token.value, opts, status);
    PreflightMeans(lib, req, opts);
    JudgementMeans(lib, p, leaf, req.httpMethod, req.url, opts.accessToken, skew, opts.now);
    var proof := JudgeProof(lib, p, leaf, req.httpMethod, req.url, opts.accessToken, skew, opts.now);
    var receipt := ReceiptOf(lib, keys, req.receipt, None);
    if receipt.Err? {
      UnverifiedReceipt(lib, keys, req, opts, leaf, status);
    } else if proof.Ok? {
      BindingMeans(lib, keys, req, opts, proof.value, leaf, status, receipt.value);
    }
  }

  /** An admission names its evidence. */
  lemma AdmissionHasEvidence(lib: Library, keys: KeyStore, req: Request, opts: Options, a: Admission)
    returns (p: Presented, leaf: LeafCert, status: StatusPayload)
    requires IsI64(opts.now) && Authenticate(lib, keys, req, opts, NO_HITS) == Ok(a)
    ensures CallerEvidence(lib, keys, req, opts, p, leaf, status, a)
  {
    p := DecodeProof(lib, req.proof).value;
    leaf := lib.leaf(p.x5c).value;
    status := FreshToken(lib, keys, req.token.value, StatusSkew(opts), opts.now).value;
    AdmittedWith(lib, keys, req, opts, p, leaf, status, a);
  }

  /** Without cached artifacts a call is admitted exactly when all the evidence is there. */
  lemma AdmittedIff(lib: Library, keys: KeyStore, req: Request, opts: Options, a: Admission)
    requires IsI64(opts.now)
    ensures Authenticate(lib, keys, req, opts, NO_HITS) == Ok(a)
            <==> exists p, leaf, status :: CallerEvidence(lib, keys, req, opts, p, leaf, status, a)
  {
    hide Authenticate;
    if Authenticate(lib, keys, req, opts, NO_HITS) == Ok(a) {
      var p, leaf, status := AdmissionHasEvidence(lib, keys, req, opts, a);
    }
    if p, leaf, status :| CallerEvidence(lib, keys, req, opts, p, leaf, status, a) {
      TokenMeans(lib, keys, req.token.value, opts, status);
      AdmittedWith(lib, keys, req, opts, p, leaf, status, a);
    }
  }

  /** The checks of a call in their order: the first that fails is the one reported. */
  lemma CallFails(lib: Library, keys: KeyStore, req: Request, opts: Options)
    requires IsI64(opts.now)
    ensures var result := Authenticate(lib, keys, req, opts, NO_HITS);
            if !TrustedRequest(lib, req, opts) then
              result == Err(if lib.authority(req.url) == None then MalformedProof else UntrustedAuthority)
            else if req.proof == "" || req.token == None || (opts.requireReceipt && req.receipt == None) then
              result == Err(MissingHeaders)
            else if ProofOf(lib, req, opts, None).Err? then result == Err(ProofOf(lib, req, opts, None).error)
            else if FreshToken(lib, keys, req.token.value, StatusSkew(opts), opts.now).Err? then result == Err(StatusInvalid)
            else if ReceiptOf(lib, keys, req.receipt, None).Err? then result == Err(ReceiptInvalid)
            else
              var status := FreshToken(lib, keys, req.token.value, StatusSkew(opts), opts.now).value;
              var leaf := lib.leaf(DecodeProof(lib, req.proof).value.x5c).value;
              if !SameAgent(lib, keys, req, opts, leaf, status) then
                result.Err? && result.error in {BindingFailed, ReceiptInvalid, ExpectedPeerMismatch}
              else if opts.content.Err? then result == Err(opts.content.error)
              else if opts.content.value != DecodeProof(lib, req.proof).value.contentDigest then result == Err(ContentBindingMismatch)
              else result.Ok?
  {
    hide TrustedRequest, DecodeProof, JudgeProof, BindCaller, SameAgent, EffectiveSkew, Scitt.VerifyTokenAt, Scitt.VerifyReceipt;
    PreflightFails(lib, req, opts);
    var proof := ProofOf(lib, req, opts, None);
    if proof.Ok? && req.token.Some? {
      var p := DecodeProof(lib, req.proof).value;
      var leaf := lib.leaf(p.x5c).value;
      JudgedResult(lib, p, leaf, req.httpMethod, req.url, opts.accessToken, EffectiveSkew(opts.popSkew).Seconds(), opts.now);
      var status := FreshToken(lib, keys, req.token.value, StatusSkew(opts), opts.now);
      var receipt := ReceiptOf(lib, keys, req.receipt, None);
      if status.Ok? && receipt.Ok? {
        BindingMeans(lib, keys, req, opts, proof.value, leaf, status.value, receipt.value);
        BindingFails(lib, proof.value, status.value, receipt.value, opts);
      }
    }
  }

  lemma PreflightFails(lib: Library, req: Request, opts: Options)
    ensures !TrustedRequest(lib, req, opts) ==>
              Preflight(lib, req, opts) == Err(if lib.authority(req.url) == None then MalformedProof else UntrustedAuthority)
    ensures TrustedRequest(lib, req, opts) ==>
              Preflight(lib, req, opts)
              == if req.proof == "" || req.token == None || (opts.requireReceipt && req.receipt == None)
                 then Err(MissingHeaders) else Ok(())
  {}

  lemma JudgedResult(
    lib: Library, p: Presented, leaf: LeafCert, method_: string, url: string,
    accessToken: Option<string>, skew: int, now: int)
    ensures var judged := JudgeProof(lib, p, leaf, method_, url, accessToken, skew, now);
            judged.Ok? ==>
              && judged.value.fingerprint == leaf.fingerprint && judged.value.name == leaf.name && judged.value.jkt == leaf.jkt
              && judged.value.contentDigest == p.contentDigest
  {}

  lemma BindingFails(
    lib: Library, proof: ProofResult, status: StatusPayload, receipt: Option<Scitt.Receipt>, opts: Options)
    ensures var bound := BindCaller(lib, proof, status, receipt, opts);
            bound.Err? ==> bound.error in {BindingFailed, ReceiptInvalid, ExpectedPeerMismatch}
  {}

  // ----- the artifact cache is transparent -----

  /** One atomic use of the shared artifact cache by some call, or a capacity eviction. */
  datatype CacheStep =
    | CertStored(x5c: string)
    | TokenStored(keys: KeyStore, token: Bytes, skew: Duration, now: int)
    | ReceiptStored(keys: KeyStore, receipt: Bytes)
    | Dropped(gone: set<Fingerprint>)

  function Step(lib: Library, cache: Artifacts, step: CacheStep): Artifacts {
    match step
    case CertStored(x5c) => StoreCert(lib, cache, x5c)
    case TokenStored(keys, token, skew, now) => StoreToken(lib, cache, keys, token, skew, now)
    case ReceiptStored(keys, receipt) => StoreReceipt(lib, cache, keys, receipt)
    case Dropped(gone) =>
      Artifacts(
        map d | d in cache.tokens && d !in gone :: cache.tokens[d],
        map d | d in cache.receipts && d !in gone :: cache.receipts[d],
        map d | d in cache.certs && d !in gone :: cache.certs[d])
  }

  function CacheAt(lib: Library, steps: seq<CacheStep>, n: nat): Artifacts
    requires n <= |steps|
  {
    if n == 0 then NO_ARTIFACTS else Step(lib, CacheAt(lib, steps, n - 1), steps[n - 1])
  }

  /** What a cache entry stands for, by the presentation that stored it. */
  ghost predicate StoredToken(lib: Library, step: CacheStep, d: Fingerprint, payload: StatusPayload) {
    && step.TokenStored? && ArtifactKey(lib.scitt.sha256, step.keys, step.token) == d
    && FreshToken(lib, step.keys, step.token, step.skew, step.now) == Ok(payload)
  }

  ghost predicate StoredReceipt(lib: Library, step: CacheStep, d: Fingerprint, receipt: Scitt.Receipt) {
    && step.ReceiptStored? && ArtifactKey(lib.scitt.sha256, step.keys, step.receipt) == d
    && FreshReceipt(lib, step.keys, step.receipt) == Ok(receipt)
  }

  ghost predicate StoredCert(lib: Library, step: CacheStep, d: Fingerprint, leaf: LeafCert) {
    step.CertStored? && CertKey(lib, step.x5c) == d && lib.leaf(step.x5c) == Ok(leaf)
  }

  /** Every entry was verified, under the key store its key names, by some earlier step. */
  lemma {:induction false} EntriesWereVerified(lib: Library, steps: seq<CacheStep>, n: nat, d: Fingerprint)
    requires n <= |steps|
    ensures var cache := CacheAt(lib, steps, n);
            && (d in cache.tokens ==> exists j :: 0 <= j < n && StoredToken(lib, steps[j], d, cache.tokens[d]))
            && (d in cache.receipts ==> exists j :: 0 <= j < n && StoredReceipt(lib, steps[j], d, cache.receipts[d]))
            && (d in cache.certs ==> exists j :: 0 <= j < n && StoredCert(lib, steps[j], d, cache.certs[d]))
  {
    if n > 0 {
      EntriesWereVerified(lib, steps, n - 1, d);
      var before, step := CacheAt(lib, steps, n - 1), steps[n - 1];
      var after := Step(lib, before, step);
      assert d in after.tokens ==>
          StoredToken(lib, step, d, after.tokens[d]) || (d in before.tokens && before.tokens[d] == after.tokens[d]);
      assert d in after.receipts ==>
          StoredReceipt(lib, step, d, after.receipts[d]) || (d in before.receipts && before.receipts[d] == after.receipts[d]);
      assert d in after.certs ==>
          StoredCert(lib, step, d, after.certs[d]) || (d in before.certs && before.certs[d] == after.certs[d]);
    }
  }

  /** The hash does not collide between what this call presents and what the run stored. */
  ghost predicate NoCollisions(lib: Library, steps: seq<CacheStep>, keys: KeyStore, req: Request) {
    var sha256 := lib.scitt.sha256;
    && Scoped(sha256, keys)
    && (forall j :: 0 <= j < |steps| ==>
          match steps[j]
          case CertStored(x5c) =>
            DecodeProof(lib, req.proof).Ok? && CertKey(lib, x5c) == CertKey(lib, DecodeProof(lib, req.proof).value.x5c) ==>
              x5c == DecodeProof(lib, req.proof).value.x5c
          case TokenStored(other, token, _, _) =>
            Scoped(sha256, other) && (req.token.Some? ==> NoCollision(sha256, other, token, keys, req.token.value))
          case ReceiptStored(other, receipt) =>
            Scoped(sha256, other) && (req.receipt.Some? ==> NoCollision(sha256, other, receipt, keys, req.receipt.value))
          case Dropped(_) => true)
  }

  lemma TokenHitIsFresh(lib: Library, steps: seq<CacheStep>, n: nat, keys: KeyStore, req: Request, opts: Options)
    requires n <= |steps| && NoCollisions(lib, steps, keys, req) && req.token.Some?
    ensures var hit := CachedToken(lib, CacheAt(lib, steps, n), keys, req.token);
            TokenPayload(lib, keys, req.token.value, StatusSkew(opts), opts.now, hit)
            == TokenPayload(lib, keys, req.token.value, StatusSkew(opts), opts.now, None)
  {
    var d := ArtifactKey(lib.scitt.sha256, keys, req.token.value);
    var cache := CacheAt(lib, steps, n);
    EntriesWereVerified(lib, steps, n, d);
    if d in cache.tokens {
      var j :| 0 <= j < n && StoredToken(lib, steps[j], d, cache.tokens[d]);
      ArtifactKeyInjective(lib.scitt.sha256, steps[j].keys, steps[j].token, keys, req.token.value);
    }
  }

  lemma ReceiptHitIsFresh(lib: Library, steps: seq<CacheStep>, n: nat, keys: KeyStore, req: Request)
    requires n <= |steps| && NoCollisions(lib, steps, keys, req)
    ensures ReceiptOf(lib, keys, req.receipt, CachedReceipt(lib, CacheAt(lib, steps, n), keys, req.receipt))
            == ReceiptOf(lib, keys, req.receipt, None)
  {
    if req.receipt.Some? {
      var d := ArtifactKey(lib.scitt.sha256, keys, req.receipt.value);
      var cache := CacheAt(lib, steps, n);
      EntriesWereVerified(lib, steps, n, d);
      if d in cache.receipts {
        var j :| 0 <= j < n && StoredReceipt(lib, steps[j], d, cache.receipts[d]);
        ArtifactKeyInjective(lib.scitt.sha256, steps[j].keys, steps[j].receipt, keys, req.receipt.value);
      }
    }
  }

  lemma CertHitIsFresh(lib: Library, steps: seq<CacheStep>, n: nat, keys: KeyStore, req: Request, opts: Options)
    requires n <= |steps| && NoCollisions(lib, steps, keys, req)
    ensures var hit := CachedCert(lib, CacheAt(lib, steps, n), req.proof);
            ProofOf(lib, req, opts, hit)
            == ProofOf(lib, req, opts, None)
  {
    if DecodeProof(lib, req.proof).Ok? {
      var x5c := DecodeProof(lib, req.proof).value.x5c;
      var d := CertKey(lib, x5c);
      var cache := CacheAt(lib, steps, n);
      EntriesWereVerified(lib, steps, n, d);
      if d in cache.certs {
        var j :| 0 <= j < n && StoredCert(lib, steps[j], d, cache.certs[d]);
        assert steps[j].x5c == x5c;
      }
    }
  }

  /** A call depends on the cache only through these three results. */
  lemma SameResultsSameCall(lib: Library, keys: KeyStore, req: Request, opts: Options, a: Hits, b: Hits)
    requires ProofOf(lib, req, opts, a.cert)
             == ProofOf(lib, req, opts, b.cert)
    requires req.token.Some? ==>
               TokenPayload(lib, keys, req.token.value, StatusSkew(opts), opts.now, a.token)
               == TokenPayload(lib, keys, req.token.value, StatusSkew(opts), opts.now, b.token)
    requires ReceiptOf(lib, keys, req.receipt, a.receipt) == ReceiptOf(lib, keys, req.receipt, b.receipt)
    ensures Authenticate(lib, keys, req, opts, a) == Authenticate(lib, keys, req, opts, b)
  {}

  /** The hits of one call whose three lookups fall at positions `i`, `j` and `k` of a run. */
  function HitsAt(
    lib: Library, steps: seq<CacheStep>, i: nat, j: nat, k: nat, keys: KeyStore, req: Request): Hits
    requires i <= |steps| && j <= |steps| && k <= |steps|
  {
    Hits(CachedCert(lib, CacheAt(lib, steps, i), req.proof),
         CachedToken(lib, CacheAt(lib, steps, j), keys, req.token),
         CachedReceipt(lib, CacheAt(lib, steps, k), keys, req.receipt))
  }

  /**
   * Artifact caching is transparent: whatever calls with whatever key stores, clocks and skews used the
   * cache before, and wherever in their interleaving this call's three lookups fall, the call decides
   * and asks to record exactly what it would without a cache.
   */
  lemma CachingIsTransparent(
    lib: Library, steps: seq<CacheStep>, i: nat, j: nat, k: nat, keys: KeyStore, req: Request, opts: Options)
    requires i <= |steps| && j <= |steps| && k <= |steps| && NoCollisions(lib, steps, keys, req)
    ensures Authenticate(lib, keys, req, opts, HitsAt(lib, steps, i, j, k, keys, req))
            == Authenticate(lib, keys, req, opts, NO_HITS)
  {
    CertHitIsFresh(lib, steps, i, keys, req, opts);
    if req.token.Some? {
      TokenHitIsFresh(lib, steps, j, keys, req, opts);
    }
    ReceiptHitIsFresh(lib, steps, k, keys, req);
    SameResultsSameCall(lib, keys, req, opts, HitsAt(lib, steps, i, j, k, keys, req), NO_HITS);
  }

  /** A sequential call changes the cache by at most three such steps, so runs of steps cover it. */
  lemma CallIsSteps(lib: Library, cache: Artifacts, keys: KeyStore, req: Request, opts: Options)
    returns (s1: Artifacts, s2: Artifacts)
    ensures s1 == cache
            || (DecodeProof(lib, req.proof).Ok? && s1 == Step(lib, cache, CertStored(DecodeProof(lib, req.proof).value.x5c)))
    ensures s2 == s1
            || (req.token.Some? && s2 == Step(lib, s1, TokenStored(keys, req.token.value, StatusSkew(opts), opts.now)))
    ensures var s3 := AfterCall(lib, cache, keys, req, opts);
            s3 == s2 || (req.receipt.Some? && s3 == Step(lib, s2, ReceiptStored(keys, req.receipt.value)))
  {
    s1 := if Preflight(lib, req, opts).Err? then cache else AfterCert(lib, cache, req);
    var hits := LookUp(lib, cache, keys, req);
    var proof := ProofOf(lib, req, opts, hits.cert);
    s2 := if Preflight(lib, req, opts).Err? || proof.Err? then s1
          else AfterToken(lib, s1, keys, req.token.value, opts);
  }

  /** An admitted call leaves all its artifacts in the cache: presented again they are hits. */
  lemma AdmittedCallWarmsCache(lib: Library, cache: Artifacts, keys: KeyStore, req: Request, opts: Options)
    requires Authenticate(lib, keys, req, opts, LookUp(lib, cache, keys, req)).Ok?
    ensures var hits := LookUp(lib, AfterCall(lib, cache, keys, req, opts), keys, req);
            hits.cert.Some? && hits.token.Some? && (req.receipt.Some? ==> hits.receipt.Some?)
  {
    hide JudgeProof, FreshToken, FreshReceipt, BindCaller;
  }

  // ----- failed calls consume nothing -----

  /** The memory holds a record that still refuses its key: an unexpired one, if its expiry is in range. */
  predicate Live(index: Index, key: string, now: int) {
    key in index && now < HeldUntil(index[key])
  }

  /**
   * Every live single-use record survives a call. A call that fails adds none; a call that succeeds was
   * admitted, found no live record of its proof, and leaves one behind if its expiry is in range.
   */
  lemma FailedCallConsumesNothing(
    lib: Library, keys: KeyStore, req: Request, opts: Options, hits: Hits, index: Index, cap: nat, commitAt: int, key: string)
    requires forall k :: k in index ==> IsI64(index[k])
    ensures var (index', result) := VerifyCall(lib, keys, req, opts, hits, index, cap, commitAt);
            && (Live(index, key, commitAt) ==> key in index' && index'[key] == index[key])
            && (result.Err? ==> (Live(index', key, commitAt) <==> Live(index, key, commitAt)))
            && (result.Ok? ==>
                  && Authenticate(lib, keys, req, opts, hits).Ok?
                  && var a := Authenticate(lib, keys, req, opts, hits).value;
                  && result.value == a.identity
                  && !Live(index, a.replayKey, commitAt) && commitAt < a.replayExp
                  && a.replayKey in index' && index'[a.replayKey] == a.replayExp)
  {
    hide Authenticate;
    if key in index {
      EvictionKeepsLive(index, commitAt, key);
    }
    if Authenticate(lib, keys, req, opts, hits).Ok? {
      var replayKey := Authenticate(lib, keys, req, opts, hits).value.replayKey;
      if replayKey in index {
        EvictionKeepsLive(index, commitAt, replayKey);
      }
    }
  }

  /**
   * A success through the caches, wherever its lookups fall in the run, stands for the whole evidence
   * and for a fresh single-use record.
   */
  lemma AcceptedCall(
    lib: Library, steps: seq<CacheStep>, i: nat, j: nat, k: nat, keys: KeyStore, req: Request, opts: Options,
    index: Index, cap: nat, commitAt: int) returns (p: Presented, leaf: LeafCert, status: StatusPayload,
    a: Admission)
    requires i <= |steps| && j <= |steps| && k <= |steps| && NoCollisions(lib, steps, keys, req)
    requires IsI64(opts.now)
    requires forall key :: key in index ==> IsI64(index[key])
    requires VerifyCall(lib, keys, req, opts, HitsAt(lib, steps, i, j, k, keys, req), index, cap, commitAt).1.Ok?
    ensures CallerEvidence(lib, keys, req, opts, p, leaf, status, a)
    ensures var (index', result) := VerifyCall(lib, keys, req, opts, HitsAt(lib, steps, i, j, k, keys, req), index, cap, commitAt);
            && result.value == a.identity
            && !Live(index, a.replayKey, commitAt) && commitAt < a.replayExp
            && a.replayKey in index' && index'[a.replayKey] == a.replayExp
            && (a.replayExp <= LAST_EVICTABLE ==> Live(index', a.replayKey, commitAt))
  {
    hide NoCollisions, CallerEvidence, Authenticate, Check, HitsAt;
    CachingIsTransparent(lib, steps, i, j, k, keys, req, opts);
    FailedCallConsumesNothing(lib, keys, req, opts, HitsAt(lib, steps, i, j, k, keys, req), index, cap, commitAt, "");
    a := Authenticate(lib, keys, req, opts, NO_HITS).value;
    p, leaf, status := AdmissionHasEvidence(lib, keys, req, opts, a);
  }

  /** What the commit of an admitted call answers: elapsed, replayed, full or recorded. */
  lemma CommitAnswers(
    lib: Library, keys: KeyStore, req: Request, opts: Options, hits: Hits, index: Index, cap: nat, commitAt: int, a: Admission)
    requires Authenticate(lib, keys, req, opts, hits) == Ok(a)
    requires forall key :: key in index ==> IsI64(index[key])
    ensures VerifyCall(lib, keys, req, opts, hits, index, cap, commitAt).1
            == if a.replayExp <= commitAt then Err(ProofStale)
               else if Live(index, a.replayKey, commitAt) then Err(Replay)
               else if |Without(Retained(index, commitAt), a.replayKey)| >= cap then Err(PopError.ReplayCacheFull)
               else Ok(a.identity)
  {
    hide Authenticate;
    if a.replayKey in index {
      EvictionKeepsLive(index, commitAt, a.replayKey);
    }
  }

  /** The use is recorded: it has not elapsed, no live record refuses it, and there is room for it. */
  ghost predicate Recordable(index: Index, cap: nat, commitAt: int, a: Admission) {
    && commitAt < a.replayExp && !Live(index, a.replayKey, commitAt)
    && |Without(Retained(index, commitAt), a.replayKey)| < cap
  }

  /**
   * A call through the caches, wherever its lookups fall in a run, succeeds exactly when all the evidence
   * is there and its use can be recorded.
   */
  lemma CallSucceedsIff(
    lib: Library, steps: seq<CacheStep>, i: nat, j: nat, k: nat, keys: KeyStore, req: Request, opts: Options,
    index: Index, cap: nat, commitAt: int, identity: CallerIdentity)
    requires i <= |steps| && j <= |steps| && k <= |steps| && NoCollisions(lib, steps, keys, req) && IsI64(opts.now)
    requires forall key :: key in index ==> IsI64(index[key])
    ensures VerifyCall(lib, keys, req, opts, HitsAt(lib, steps, i, j, k, keys, req), index, cap, commitAt).1 == Ok(identity)
            <==> exists p, leaf, status, a :: CallerEvidence(lib, keys, req, opts, p, leaf, status, a)
                                              && a.identity == identity && Recordable(index, cap, commitAt, a)
  {
    hide NoCollisions, CallerEvidence, Authenticate, Check, HitsAt, Live;
    var hits := HitsAt(lib, steps, i, j, k, keys, req);
    CachingIsTransparent(lib, steps, i, j, k, keys, req, opts);
    var admitted := Authenticate(lib, keys, req, opts, NO_HITS);
    if admitted.Ok? {
      CommitAnswers(lib, keys, req, opts, hits, index, cap, commitAt, admitted.value);
      AdmittedIff(lib, keys, req, opts, admitted.value);
    }
    if p, leaf, status, a :| CallerEvidence(lib, keys, req, opts, p, leaf, status, a)
                             && a.identity == identity && Recordable(index, cap, commitAt, a) {
      AdmittedIff(lib, keys, req, opts, a);
    }
  }

  // ----- single use over every interleaving -----

  /** A commit by some admitted call: its proof, the skew and clock it was judged by, and the commit's clock. */
  datatype Use =
    | Commit(jti: string, iat: int, skew: int, verifiedAt: int, commitAt: int)
    | Sweep(sweptAt: int)

  function OpOf(lib: Library, use: Use): Op {
    match use
    case Commit(jti, iat, skew, _, commitAt) => CheckAndStore(commitAt, lib.digestText(jti), ReplayExp(iat, skew))
    case Sweep(sweptAt) => EvictExpired(sweptAt)
  }

  /** Every admitted call commits exactly such a use, of a proof that was fresh when it was judged. */
  lemma AdmissionIsUse(
    lib: Library, keys: KeyStore, req: Request, opts: Options, p: Presented, leaf: LeafCert, status: StatusPayload,
    a: Admission, commitAt: int)
    requires CallerEvidence(lib, keys, req, opts, p, leaf, status, a)
    ensures var skew := PopWindow(opts);
            && Fresh(p.payload.iat, opts.now, skew)
            && OpOf(lib, Commit(p.payload.jti, p.payload.iat, skew, opts.now, commitAt))
               == CheckAndStore(commitAt, a.replayKey, a.replayExp)
  {
    WindowsMean(opts, p.payload.iat);
  }

  function Ops(lib: Library, uses: seq<Use>): (ops: seq<Op>)
    ensures |ops| == |uses| && forall i :: 0 <= i < |uses| ==> ops[i] == OpOf(lib, uses[i])
  {
    seq(|uses|, i requires 0 <= i < |uses| => OpOf(lib, uses[i]))
  }

  /** The commit clock never goes back, and each committed proof was fresh when it was judged. */
  ghost predicate Admissible(lib: Library, uses: seq<Use>) {
    && (forall i, j :: 0 <= i < j < |uses| ==> Ops(lib, uses)[i].now <= Ops(lib, uses)[j].now)
    && (forall i :: 0 <= i < |uses| && uses[i].Commit? ==>
          && IsI64(uses[i].iat) && IsI64(uses[i].verifiedAt) && 0 <= uses[i].skew
          && Fresh(uses[i].iat, uses[i].verifiedAt, uses[i].skew))
  }

  lemma AdmissibleIsOrderly(lib: Library, uses: seq<Use>)
    requires Admissible(lib, uses)
    ensures OrderlyRun(Ops(lib, uses))
  {}

  ghost predicate AcceptedUse(lib: Library, cap: nat, uses: seq<Use>, i: nat) {
    i < |uses| && CommittedAt(cap, Ops(lib, uses), i)
  }

  /** The record of a proof issued at `iat` and judged under this skew has an expiry in range. */
  predicate RoomFor(iat: int, skew: int) {
    iat + skew + REPLAY_GRACE_SECS <= LAST_EVICTABLE
  }

  /**
   * Single use: two acceptances of one proof need a strictly larger skew the second time, and the
   * second comes only after the first one's record has expired. Under one skew a proof is accepted once.
   * Only the first record's expiry must be in range, whatever the other uses carry.
   */
  lemma ProofAcceptedOnce(lib: Library, cap: nat, uses: seq<Use>, i: nat, j: nat)
    requires Admissible(lib, uses) && i < j
    requires AcceptedUse(lib, cap, uses, i) && AcceptedUse(lib, cap, uses, j)
    requires uses[i].jti == uses[j].jti && uses[i].iat == uses[j].iat
    requires RoomFor(uses[i].iat, uses[i].skew)
    ensures uses[i].skew < uses[j].skew
    ensures uses[i].iat + uses[i].skew + REPLAY_GRACE_SECS <= uses[j].commitAt
  {
    AdmissibleIsOrderly(lib, uses);
    CommitsOfOneKeyAreDisjoint(cap, Ops(lib, uses), i, j);
  }

  /** Two commits of one proof under the two skews, the second as soon as the first record no longer refuses it. */
  function TwoUses(jti: string, iat: int, first: int, second: int): seq<Use> {
    var start := if iat - 1 < I64_MIN + 2 then I64_MIN + 2 else iat - 1;
    var again := if RoomFor(iat, first) then iat + first + REPLAY_GRACE_SECS else start;
    [Commit(jti, iat, first, iat, start), Commit(jti, iat, second, iat, again)]
  }

  /** The proof is accepted twice by callers that share a memory under skews `first` then `second`. */
  ghost predicate AcceptedTwice(lib: Library, cap: nat, uses: seq<Use>, jti: string, iat: int, first: int, second: int) {
    && |uses| == 2 && Admissible(lib, uses)
    && AcceptedUse(lib, cap, uses, 0) && AcceptedUse(lib, cap, uses, 1)
    && (uses[0].jti, uses[0].iat, uses[0].skew) == (jti, iat, first)
    && (uses[1].jti, uses[1].iat, uses[1].skew) == (jti, iat, second)
  }

  /**
   * The bound is exact: callers that share a cache under skews `first` then `second` can reuse a proof if
   * and only if the skew grows, or the first record's expiry is out of range.
   */
  lemma ReusableIffSkewGrows(lib: Library, cap: nat, jti: string, iat: int, first: int, second: int)
    requires cap > 0 && IsI64(iat) && iat != 0 && 0 <= first && 0 <= second
    ensures (exists uses: seq<Use> :: AcceptedTwice(lib, cap, uses, jti, iat, first, second))
            <==> first < second || !RoomFor(iat, first)
  {
    hide Admissible, AcceptedUse;
    forall uses: seq<Use> | AcceptedTwice(lib, cap, uses, jti, iat, first, second)
      ensures first < second || !RoomFor(iat, first)
    {
      if RoomFor(iat, first) {
        ProofAcceptedOnce(lib, cap, uses, 0, 1);
      }
    }
    if first < second || !RoomFor(iat, first) {
      TwoUsesAccepted(lib, cap, jti, iat, first, second);
    }
  }

  lemma TwoUsesAccepted(lib: Library, cap: nat, jti: string, iat: int, first: int, second: int)
    requires cap > 0 && IsI64(iat) && iat != 0 && 0 <= first && 0 <= second
    requires first < second || !RoomFor(iat, first)
    ensures AcceptedTwice(lib, cap, TwoUses(jti, iat, first, second), jti, iat, first, second)
  {
    var uses := TwoUses(jti, iat, first, second);
    var ops, key := Ops(lib, uses), lib.digestText(jti);
    assert Without(Retained(map[], ops[0].now), key) == map[];
    var index := IndexAt(cap, ops, 1);
    assert index == Check(IndexAt(cap, ops, 0), cap, ops[0].now, key, ops[0].exp).0 == map[key := ops[0].exp];
    DeadlineExact(ops[0].exp);
    if RoomFor(iat, first) {
      assert Without(Retained(index, ops[1].now), key) == map[];
    } else {
      assert Retained(index, ops[1].now) == map[];
      assert Without(Retained(index, ops[1].now), key) == map[];
    }
  }

  lemma CommitLifetime(lib: Library, uses: seq<Use>, skew: int, j: nat)
    requires Admissible(lib, uses) && j < |uses| && uses[j].Commit?
    requires uses[j].skew <= skew && uses[j].verifiedAt <= uses[j].commitAt
    ensures Ops(lib, uses)[j].exp <= Ops(lib, uses)[j].now + (2 * skew + REPLAY_GRACE_SECS)
  {
    assert Fresh(uses[j].iat, uses[j].verifiedAt, uses[j].skew);
  }

  /**
   * Sizing for a deployment: when every proof is judged before its commit with a skew of at most
   * `skew`, and every window of twice the skew plus ten seconds holds fewer accepted proofs than the
   * capacity, no proof is refused for capacity.
   */
  lemma SizedForSkew(lib: Library, cap: nat, uses: seq<Use>, skew: int, i: nat)
    requires Admissible(lib, uses) && i < |uses| && uses[i].Commit?
    requires forall j :: 0 <= j < |uses| && uses[j].Commit? ==> uses[j].skew <= skew && uses[j].verifiedAt <= uses[j].commitAt
    requires |WindowCommits(cap, Ops(lib, uses), i, 2 * skew + 10)| < cap
    ensures AnswerAt(cap, Ops(lib, uses), i) != Full
  {
    var ops, life := Ops(lib, uses), 2 * skew + REPLAY_GRACE_SECS;
    AdmissibleIsOrderly(lib, uses);
    forall j: nat | j < i && CommittedAt(cap, ops, j) ensures ops[j].exp <= ops[j].now + life {
      CommitLifetime(lib, uses, skew, j);
    }
    SizedRunNeverFull(cap, ops, life, i);
  }

  // ----- the sizing window is exact -----

  /** Every proof is judged no later than its commit, under a skew of at most `skew`. */
  ghost predicate JudgedFirst(uses: seq<Use>, skew: int) {
    forall j :: 0 <= j < |uses| && uses[j].Commit? ==> uses[j].skew <= skew && uses[j].verifiedAt <= uses[j].commitAt
  }

  lemma UsesAreShortLived(lib: Library, cap: nat, uses: seq<Use>, skew: int)
    requires Admissible(lib, uses) && JudgedFirst(uses, skew)
    ensures OrderlyRun(Ops(lib, uses)) && ShortLived(cap, Ops(lib, uses), 2 * skew + REPLAY_GRACE_SECS)
  {
    AdmissibleIsOrderly(lib, uses);
    forall j: nat | CommittedAt(cap, Ops(lib, uses), j)
      ensures Ops(lib, uses)[j].exp <= Ops(lib, uses)[j].now + (2 * skew + REPLAY_GRACE_SECS)
    {
      CommitLifetime(lib, uses, skew, j);
    }
  }

  /** The tight load as proofs: one issued ahead of the verifier's clock by the whole skew, the others in its last second. */
  function TightUses(jtis: seq<string>, skew: nat): (uses: seq<Use>)
    ensures |uses| == |jtis|
  {
    var end := if skew == 0 then 10 else 5;
    var start := end - 2 * skew - REPLAY_GRACE_SECS;
    seq(|jtis|, i requires 0 <= i < |jtis| =>
      if i == 0 then Commit(jtis[0], start + skew, skew, start, start)
      else Commit(jtis[i], end + 4 + skew, skew, end + 4, end + 4))
  }

  function TightStart(skew: nat): int {
    (if skew == 0 then 10 else 5) - 2 * skew - REPLAY_GRACE_SECS
  }

  lemma TightUsesAdmissible(lib: Library, jtis: seq<string>, skew: nat)
    requires 2 * skew + 20 <= LAST_EVICTABLE
    ensures Admissible(lib, TightUses(jtis, skew)) && JudgedFirst(TightUses(jtis, skew), skew)
  {}

  lemma TightUsesLoad(lib: Library, jtis: seq<string>, skew: nat, cap: nat)
    requires |jtis| == cap + 1 && 2 * skew + 20 <= LAST_EVICTABLE
    requires forall i, j :: 0 <= i < j < |jtis| ==> lib.digestText(jtis[i]) != lib.digestText(jtis[j])
    ensures TightLoad(cap, Ops(lib, TightUses(jtis, skew)), 2 * skew + REPLAY_GRACE_SECS, TightStart(skew))
  {}

  lemma ShorterWindowFailsForUses(lib: Library, cap: nat, skew: nat, width: int, jtis: seq<string>)
    requires cap > 0 && 2 * skew + 20 <= LAST_EVICTABLE && width < 2 * skew + 10 && |jtis| == cap + 1
    requires forall i, j :: 0 <= i < j < |jtis| ==> lib.digestText(jtis[i]) != lib.digestText(jtis[j])
    ensures var uses := TightUses(jtis, skew);
            && Admissible(lib, uses) && JudgedFirst(uses, skew)
            && Sparse(cap, Ops(lib, uses), width) && !NeverFull(cap, Ops(lib, uses))
  {
    hide Sparse, NeverFull, TightLoad, Admissible, JudgedFirst;
    TightUsesAdmissible(lib, jtis, skew);
    TightUsesLoad(lib, jtis, skew, cap);
    TightLoadFailsBelow(cap, Ops(lib, TightUses(jtis, skew)), 2 * skew + REPLAY_GRACE_SECS, TightStart(skew), width);
  }

  /**
   * For callers of skew at most `skew`, windows of `width` seconds with fewer accepted proofs than the
   * capacity rule out every refusal for capacity if and only if the width is at least twice the skew plus
   * ten; `jtis` are as many identifiers with distinct digests as the refused load needs.
   */
  lemma SizingForSkewExact(lib: Library, cap: nat, skew: nat, width: int, jtis: seq<string>)
    requires cap > 0 && 2 * skew + 20 <= LAST_EVICTABLE && |jtis| == cap + 1
    requires forall i, j :: 0 <= i < j < |jtis| ==> lib.digestText(jtis[i]) != lib.digestText(jtis[j])
    ensures (forall uses :: Admissible(lib, uses) && JudgedFirst(uses, skew) && Sparse(cap, Ops(lib, uses), width) ==>
               NeverFull(cap, Ops(lib, uses)))
            <==> width >= 2 * skew + 10
  {
    hide Admissible, JudgedFirst, Sparse, NeverFull;
    if width >= 2 * skew + 10 {
      forall uses | Admissible(lib, uses) && JudgedFirst(uses, skew) && Sparse(cap, Ops(lib, uses), width)
        ensures NeverFull(cap, Ops(lib, uses))
      {
        UsesAreShortLived(lib, cap, uses, skew);
        SparseRunNeverFull(cap, Ops(lib, uses), 2 * skew + REPLAY_GRACE_SECS, width);
      }
    } else {
      ShorterWindowFailsForUses(lib, cap, skew, width, jtis);
    }
  }

  // ----- the documented sizing rule -----

  /** `rate` new proofs per second from second `start` on, each judged and committed in the second it was issued. */
  ghost predicate PerSecond(lib: Library, uses: seq<Use>, start: int, skew: nat, rate: nat)
    requires rate > 0
  {
    && (forall i :: 0 <= i < |uses| ==>
          uses[i].Commit? && uses[i] == Commit(uses[i].jti, start + i / rate, skew, start + i / rate, start + i / rate))
    && (forall i, j :: 0 <= i < j < |uses| ==> lib.digestText(uses[i].jti) != lib.digestText(uses[j].jti))
  }

  lemma UseIsStep(lib: Library, use: Use, t: int, skew: nat)
    requires use.Commit? && use == Commit(use.jti, t, skew, t, t)
    requires I64_MIN <= t && t + skew + REPLAY_GRACE_SECS <= LAST_EVICTABLE
    ensures OpOf(lib, use) == CheckAndStore(t, lib.digestText(use.jti), t + skew + REPLAY_GRACE_SECS)
  {}

  lemma PerSecondTimes(lib: Library, uses: seq<Use>, start: int, skew: nat, rate: nat, i: nat)
    requires rate > 0 && PerSecond(lib, uses, start, skew, rate) && InRange(start, skew + REPLAY_GRACE_SECS, |uses|) && i < |uses|
    ensures var t := start + i / rate;
            Ops(lib, uses)[i] == CheckAndStore(t, lib.digestText(uses[i].jti), t + skew + REPLAY_GRACE_SECS)
  {
    hide OpOf;
    DivAtMost(i, rate);
    UseIsStep(lib, uses[i], start + i / rate, skew);
  }

  lemma PerSecondKeys(lib: Library, uses: seq<Use>, start: int, skew: nat, rate: nat)
    requires rate > 0 && PerSecond(lib, uses, start, skew, rate)
    ensures forall i :: 0 <= i < |uses| ==> uses[i].Commit?
    ensures forall i, j :: 0 <= i < j < |uses| ==> lib.digestText(uses[i].jti) != lib.digestText(uses[j].jti)
  {}

  lemma PerSecondIsSteady(lib: Library, uses: seq<Use>, start: int, skew: nat, rate: nat)
    requires rate > 0 && PerSecond(lib, uses, start, skew, rate) && InRange(start, skew + REPLAY_GRACE_SECS, |uses|)
    ensures SteadyLoad(start, skew + REPLAY_GRACE_SECS, rate, Ops(lib, uses))
  {
    hide OpOf, PerSecond, InRange;
    PerSecondKeys(lib, uses, start, skew, rate);
    forall i: nat | i < |uses|
      ensures Ops(lib, uses)[i]
              == CheckAndStore(start + i / rate, lib.digestText(uses[i].jti), start + i / rate + skew + REPLAY_GRACE_SECS)
    {
      PerSecondTimes(lib, uses, start, skew, rate, i);
    }
  }

  /**
   * The capacity a steady load needs, exactly: a run of `rate` proofs per second is never refused if and
   * only if the capacity is at least the rate times (skew + grace + one bucket), that is skew plus ten.
   */
  lemma SteadyCapacityExact(lib: Library, uses: seq<Use>, start: int, skew: nat, rate: nat, cap: nat)
    requires rate > 0 && PerSecond(lib, uses, start, skew, rate)
    requires rate * (skew + 14) <= |uses| && InRange(start, skew + REPLAY_GRACE_SECS, |uses|)
    ensures NeverFull(cap, Ops(lib, uses)) <==> cap >= rate * (skew + 10)
  {
    PerSecondIsSteady(lib, uses, start, skew, rate);
    assert rate * (skew + REPLAY_GRACE_SECS + BUCKET_WIDTH_SECS) == rate * (skew + 10);
    assert rate * (skew + REPLAY_GRACE_SECS + 9) == rate * (skew + 14);
    hide SteadyLoad, PerSecond, NeverFull;
    SteadyLoadExact(cap, start, skew + REPLAY_GRACE_SECS, rate, Ops(lib, uses));
  }

  /**
   * Capacity equal to the request rate times (skew + grace), the rule in the cache's documentation, is
   * not enough: the first request of the second in which the first records expire is refused, because
   * those records are kept until their bucket ends.
   */
  lemma DocumentedSizingFallsShort(lib: Library, uses: seq<Use>, start: int, skew: nat, rate: nat, cap: nat)
    requires rate > 0 && PerSecond(lib, uses, start, skew, rate)
    requires cap == rate * (skew + REPLAY_GRACE_SECS) && cap < |uses|
    requires InRange(start, skew + REPLAY_GRACE_SECS, |uses|)
    ensures AnswerAt(cap, Ops(lib, uses), cap) == Full
  {
    PerSecondIsSteady(lib, uses, start, skew, rate);
    hide PerSecond;
    SteadyLoadRefused(cap, start, skew + REPLAY_GRACE_SECS, rate, Ops(lib, uses));
  }
}
