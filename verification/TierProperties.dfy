/** No downgrade: what a success means under each tier policy. */
module TierProperties {
  import opened Wrappers
  import opened Text
  import opened Clock
  import opened Fingerprints
  import opened Names
  import opened Badges
  import opened BadgeCache
  import opened TrustScope
  import opened Outcomes
  import opened BadgeRules
  import opened ServerVerifier
  import opened ServerOutcomes
  import opened ScittVerifier
  import opened ScittArtifacts
  import opened ScittRuns
  import opened AnsVerifier
  import Client = ClientVerifier
  import ClientProperties

  /** A success that reports exactly what the SCITT attempt established. */
  ghost predicate FromAttempt(outcome: Outcome, attempt: Option<Outcome>) {
    && outcome.ScittVerified? && attempt.Some? && attempt.value.ScittVerified?
    && outcome.token == attempt.value.token && outcome.tier == attempt.value.tier
    && outcome.fingerprint == attempt.value.fingerprint
  }

  ghost predicate Enhancing(setup: ScittSetup) {
    setup.policy == Some(BadgeWithScittEnhancement)
  }

  /** An attempt never succeeds other than by SCITT evidence, and never carries a badge of its own. */
  ghost predicate ScittOnly(attempt: Option<Outcome>) {
    attempt.Some? && attempt.value.IsSuccess() ==> attempt.value.ScittVerified? && attempt.value.enhanced == None
  }

  /** The server policies, given the attempt. */
  lemma ServerPolicies(
    cfg: Config, s: CacheState, setup: ScittSetup, host: string, cert: CertIdentity, headers: Headers,
    attempt: Option<Outcome>, w: World)
    requires setup.Active() && !headers.IsEmpty() && CanonicalHost(host) && Indexed(s) && ScittOnly(attempt)
    ensures var outcome := ServerWithScitt(cfg, s, setup, host, cert, headers, attempt, w).1;
            outcome.IsSuccess() ==>
              && FromAttempt(outcome, attempt) && DanePassed(cfg, cert, w.tlsa)
              && (Enhancing(setup) <==> outcome.enhanced.Some?)
              && (Enhancing(setup) ==>
                    ServerEvidence(outcome.enhanced.value, cert, host)
                    && BadgeSource(cfg, s, host, w, outcome.enhanced.value))
  {
    hide VerifyBadge, EnforceDane, DanePassed, ServerEvidence, BadgeSource;
    FqdnImage(host);
    DaneGate(cfg, cert, w.tlsa, FinalOutcome(attempt));
    DaneGate(cfg, cert, w.tlsa, VerifyBadge(cfg, s, host, cert, w).1);
    ServerSuccess(cfg, s, host, cert, w);
  }

  lemma ClientPolicies(
    cfg: Config, s: CacheState, setup: ScittSetup, cert: CertIdentity, headers: Headers,
    attempt: Option<Outcome>, w: Client.ClientWorld)
    requires setup.Active() && !headers.IsEmpty() && ScittOnly(attempt)
    ensures var outcome := ClientWithScitt(cfg, s, setup, cert, headers, attempt, w).1;
            outcome.IsSuccess() ==>
              && FromAttempt(outcome, attempt)
              && (Enhancing(setup) <==> outcome.enhanced.Some?)
              && (Enhancing(setup) ==>
                    && Client.Claims(cert).Ok?
                    && ClientEvidence(outcome.enhanced.value, cert, Client.Claims(cert).value.1))
  {
    hide Client.Verify, Client.Claims, ClientEvidence, ClientProperties.ClientSource;
    ClientProperties.ClientSuccess(cfg, s, cert, w);
  }

  /** What an attempt with hits from a run establishes. */
  lemma AttemptMeans(
    lib: Library, presented: set<Presentation>, steps: seq<ScittRuns.Step>, call: Call, i: nat, j: nat, k: nat)
    requires CollisionFree(lib, presented) && PresentedRun(steps, presented) && IsI64(call.now)
    requires call.headers.token.Some? ==> Presents(call, presented)
    requires i <= |steps| && j <= |steps| && k <= |steps|
    ensures var attempt := Decide(lib, call, HitsAt(lib, steps, i, j, k, call));
            && ScittOnly(attempt)
            && (attempt.Some? && attempt.value.IsSuccess() ==>
                  var o := attempt.value;
                  call.headers.token.Some? && ScittEvidence(lib, call, o.token, o.tier, o.fingerprint)
                  && (o.tier == FullScitt <==> call.headers.receipt.Some?))
  {
    hide Decide, CollisionFree, PresentedRun, Presents, HitsAt;
    ScittCachingIsTransparent(lib, presented, steps, call, i, j, k);
    if Decide(lib, call, NO_HITS).Some? && Decide(lib, call, NO_HITS).value.IsSuccess() {
      ScittSuccessMeans(lib, call);
    }
  }

  /**
   * With SCITT active, a server that presents any SCITT header succeeds only with SCITT evidence, in
   * the full tier exactly when it sent a receipt, and past the DANE gate; under the enhancement policy
   * its badge was verified too. Headers with a receipt but no status token therefore never succeed. Cache
   * hits, wherever they fall in a run, change none of this.
   */
  lemma NoServerDowngrade(
    cfg: Config, s: CacheState, setup: ScittSetup, host: string, call: Call, w: World,
    presented: set<Presentation>, steps: seq<ScittRuns.Step>, i: nat, j: nat, k: nat)
    requires setup.Active() && CanonicalHost(host) && Indexed(s) && IsI64(call.now)
    requires call.role == Server(host) && !call.headers.IsEmpty()
    requires call.headers.token.Some? ==> Presents(call, presented)
    requires CollisionFree(setup.lib, presented) && PresentedRun(steps, presented)
    requires i <= |steps| && j <= |steps| && k <= |steps|
    ensures var attempt := Decide(setup.lib, call, HitsAt(setup.lib, steps, i, j, k, call));
            var outcome := ServerWithScitt(cfg, s, setup, host, call.cert, call.headers, attempt, w).1;
            outcome.IsSuccess() ==>
              && outcome.ScittVerified? && call.headers.token.Some?
              && ScittEvidence(setup.lib, call, outcome.token, outcome.tier, outcome.fingerprint)
              && (outcome.tier == FullScitt <==> call.headers.receipt.Some?)
              && DanePassed(cfg, call.cert, w.tlsa)
              && (Enhancing(setup) <==> outcome.enhanced.Some?)
              && (Enhancing(setup) ==>
                    ServerEvidence(outcome.enhanced.value, call.cert, host)
                    && BadgeSource(cfg, s, host, w, outcome.enhanced.value))
  {
    hide Decide, ScittEvidence, CollisionFree, PresentedRun, Presents, HitsAt, ServerWithScitt, BadgeSource, DanePassed;
    AttemptMeans(setup.lib, presented, steps, call, i, j, k);
    ServerPolicies(cfg, s, setup, host, call.cert, call.headers,
                   Decide(setup.lib, call, HitsAt(setup.lib, steps, i, j, k, call)), w);
  }

  /** The same for clients, which have no DANE gate. */
  lemma NoClientDowngrade(
    cfg: Config, s: CacheState, setup: ScittSetup, call: Call, w: Client.ClientWorld,
    presented: set<Presentation>, steps: seq<ScittRuns.Step>, i: nat, j: nat, k: nat)
    requires setup.Active() && IsI64(call.now)
    requires call.role == Role.Client && !call.headers.IsEmpty()
    requires call.headers.token.Some? ==> Presents(call, presented)
    requires CollisionFree(setup.lib, presented) && PresentedRun(steps, presented)
    requires i <= |steps| && j <= |steps| && k <= |steps|
    ensures var attempt := Decide(setup.lib, call, HitsAt(setup.lib, steps, i, j, k, call));
            var outcome := ClientWithScitt(cfg, s, setup, call.cert, call.headers, attempt, w).1;
            outcome.IsSuccess() ==>
              && outcome.ScittVerified? && call.headers.token.Some?
              && ScittEvidence(setup.lib, call, outcome.token, outcome.tier, outcome.fingerprint)
              && (outcome.tier == FullScitt <==> call.headers.receipt.Some?)
              && (Enhancing(setup) <==> outcome.enhanced.Some?)
              && (Enhancing(setup) ==>
                    && Client.Claims(call.cert).Ok?
                    && ClientEvidence(outcome.enhanced.value, call.cert, Client.Claims(call.cert).value.1))
  {
    hide Decide, ScittEvidence, CollisionFree, PresentedRun, Presents, HitsAt, ClientWithScitt, ClientEvidence, Client.Claims;
    AttemptMeans(setup.lib, presented, steps, call, i, j, k);
    ClientPolicies(cfg, s, setup, call.cert, call.headers,
                   Decide(setup.lib, call, HitsAt(setup.lib, steps, i, j, k, call)), w);
  }

  /** Without headers only a badge can succeed, and under the strict policy nothing can. */
  lemma WithoutHeaders(
    cfg: Config, s: CacheState, setup: ScittSetup, host: string, cert: CertIdentity, headers: Headers,
    attempt: Option<Outcome>, w: World)
    requires setup.Active() && headers.IsEmpty() && CanonicalHost(host) && Indexed(s)
    ensures var outcome := ServerWithScitt(cfg, s, setup, host, cert, headers, attempt, w).1;
            outcome.IsSuccess() ==>
              && setup.policy != Some(RequireScitt)
              && outcome.Verified? && ServerEvidence(outcome.badge, cert, host)
              && BadgeSource(cfg, s, host, w, outcome.badge) && DanePassed(cfg, cert, w.tlsa)
  {
    FqdnImage(host);
    DaneGate(cfg, cert, w.tlsa, VerifyBadge(cfg, s, host, cert, w).1);
    ServerSuccess(cfg, s, host, cert, w);
  }

  // ----- each policy exactly -----

  /** The badge verification succeeds and DANE passes. */
  ghost predicate ByBadge(cfg: Config, s: CacheState, host: string, cert: CertIdentity, w: World) {
    VerifyBadge(cfg, s, host, cert, w).1.IsSuccess() && DanePassed(cfg, cert, w.tlsa)
  }

  ghost predicate Succeeded(attempt: Option<Outcome>) {
    attempt.Some? && attempt.value.IsSuccess()
  }

  /** What each policy asks for, given whether any header was sent and which of the two ways succeed. */
  predicate PolicyAsks(setup: ScittSetup, sent: bool, byBadge: bool, byScitt: bool) {
    if setup.policy.None? || !setup.keyStorePresent then byBadge
    else
      match setup.policy.value
      case RequireScitt => sent && byScitt
      case ScittWithBadgeFallback => if sent then byScitt else byBadge
      case BadgeWithScittEnhancement => byBadge && (sent ==> byScitt)
  }

  /** A server succeeds exactly when its policy's demands are met, and never for a malformed host. */
  lemma ServerTierIff(
    cfg: Config, s: CacheState, setup: ScittSetup, fqdn: string, cert: CertIdentity, headers: Headers,
    attempt: Option<Outcome>, w: World)
    ensures var outcome := ServerWithScitt(cfg, s, setup, fqdn, cert, headers, attempt, w).1;
            var sent := headers.token.Some? || headers.receipt.Some?;
            outcome.IsSuccess()
            <==> NewFqdn(fqdn).Ok?
                 && PolicyAsks(setup, sent, ByBadge(cfg, s, NewFqdn(fqdn).value, cert, w),
                               Succeeded(attempt) && DanePassed(cfg, cert, w.tlsa))
  {
    hide VerifyBadge, EnforceDane, DanePassed, NewFqdn;
    if NewFqdn(fqdn).Ok? {
      DaneGate(cfg, cert, w.tlsa, FinalOutcome(attempt));
      DaneGate(cfg, cert, w.tlsa, VerifyBadge(cfg, s, NewFqdn(fqdn).value, cert, w).1);
    }
  }

  /** What a server's success reports: the badge, the SCITT evidence, or the evidence with the badge it enhances. */
  lemma ServerTierReports(
    cfg: Config, s: CacheState, setup: ScittSetup, host: string, cert: CertIdentity, headers: Headers,
    attempt: Option<Outcome>, w: World)
    requires CanonicalHost(host) && ServerWithScitt(cfg, s, setup, host, cert, headers, attempt, w).1.IsSuccess()
    ensures var outcome := ServerWithScitt(cfg, s, setup, host, cert, headers, attempt, w).1;
            var badge := VerifyBadge(cfg, s, host, cert, w).1;
            var sent := headers.token.Some? || headers.receipt.Some?;
            if !setup.Active() || !sent then outcome == badge
            else if Enhancing(setup) then
              attempt.value.ScittVerified? && badge.Verified? ==>
                outcome == ScittVerified(attempt.value.token, attempt.value.tier, attempt.value.fingerprint, Some(badge.badge))
            else Some(outcome) == attempt
  {
    hide VerifyBadge, EnforceDane, NewFqdn;
    FqdnImage(host);
    DaneGate(cfg, cert, w.tlsa, FinalOutcome(attempt));
    DaneGate(cfg, cert, w.tlsa, VerifyBadge(cfg, s, host, cert, w).1);
  }

  lemma ClientTierIff(
    cfg: Config, s: CacheState, setup: ScittSetup, cert: CertIdentity, headers: Headers,
    attempt: Option<Outcome>, w: Client.ClientWorld)
    ensures var outcome := ClientWithScitt(cfg, s, setup, cert, headers, attempt, w).1;
            var sent := headers.token.Some? || headers.receipt.Some?;
            outcome.IsSuccess()
            <==> PolicyAsks(setup, sent, Client.Verify(cfg, s, cert, w).1.IsSuccess(), Succeeded(attempt))
  {
    hide Client.Verify;
  }

  /** In a run an attempt succeeds exactly when there is SCITT evidence, wherever its lookups fall. */
  lemma AttemptSucceedsIff(
    lib: Library, presented: set<Presentation>, steps: seq<ScittRuns.Step>, call: Call, i: nat, j: nat, k: nat)
    requires CollisionFree(lib, presented) && PresentedRun(steps, presented) && IsI64(call.now)
    requires call.headers.token.Some? ==> Presents(call, presented)
    requires i <= |steps| && j <= |steps| && k <= |steps|
    ensures Succeeded(Decide(lib, call, HitsAt(lib, steps, i, j, k, call)))
            <==> exists t, tier, fp :: ScittEvidence(lib, call, t, tier, fp)
  {
    hide Decide, CollisionFree, PresentedRun, Presents, HitsAt, ScittEvidence;
    ScittCachingIsTransparent(lib, presented, steps, call, i, j, k);
    var plain := Decide(lib, call, NO_HITS);
    if plain.Some? && plain.value.IsSuccess() {
      ScittSuccessMeans(lib, call);
    }
    if t, tier, fp :| ScittEvidence(lib, call, t, tier, fp) {
      ScittSuccessIff(lib, call, t, tier, fp);
    }
  }

  // ----- failures are final -----

  /** How present headers fail: without a token for its lack, otherwise as the attempt did. */
  ghost predicate HeadersFail(attempt: Option<Outcome>, outcome: Outcome) {
    if attempt.None? then outcome == ScittFailure(MissingTokenField)
    else outcome == attempt.value
  }

  /** A failure under an active policy: of the badge, of the headers, of their absence, or of the DANE gate. */
  lemma ServerTierFails(
    cfg: Config, s: CacheState, setup: ScittSetup, host: string, cert: CertIdentity, headers: Headers,
    attempt: Option<Outcome>, w: World)
    requires CanonicalHost(host) && setup.Active()
    requires !ServerWithScitt(cfg, s, setup, host, cert, headers, attempt, w).1.IsSuccess()
    ensures var outcome := ServerWithScitt(cfg, s, setup, host, cert, headers, attempt, w).1;
            var sent := headers.token.Some? || headers.receipt.Some?;
            if Enhancing(setup) && !ByBadge(cfg, s, host, cert, w) then outcome == Verify(cfg, s, host, cert, w).1
            else if sent && !Succeeded(attempt) then HeadersFail(attempt, outcome)
            else if sent then outcome.DaneFailure?
            else if setup.policy == Some(RequireScitt) then outcome == ScittFailure(MissingTokenField)
            else outcome == Verify(cfg, s, host, cert, w).1
  {
    hide VerifyBadge, NewFqdn, DaneDecision;
    FqdnImage(host);
    DaneGate(cfg, cert, w.tlsa, FinalOutcome(attempt));
    DaneGate(cfg, cert, w.tlsa, VerifyBadge(cfg, s, host, cert, w).1);
  }

  lemma ClientTierFails(
    cfg: Config, s: CacheState, setup: ScittSetup, cert: CertIdentity, headers: Headers,
    attempt: Option<Outcome>, w: Client.ClientWorld)
    requires setup.Active() && !ClientWithScitt(cfg, s, setup, cert, headers, attempt, w).1.IsSuccess()
    ensures var outcome := ClientWithScitt(cfg, s, setup, cert, headers, attempt, w).1;
            var badge := Client.Verify(cfg, s, cert, w).1;
            var sent := headers.token.Some? || headers.receipt.Some?;
            if Enhancing(setup) && !badge.IsSuccess() then outcome == badge
            else if sent then HeadersFail(attempt, outcome)
            else if setup.policy == Some(RequireScitt) then outcome == ScittFailure(MissingTokenField)
            else outcome == badge
  {
    hide Client.Verify;
  }
}
