/** The combined verifier: badge and SCITT evidence under the three tier policies. */
module AnsVerifier {
  import opened Wrappers
  import opened Clock
  import opened Fingerprints
  import opened Names
  import opened Badges
  import opened BadgeCache
  import opened TrustScope
  import opened Outcomes
  import opened BadgeRules
  import opened ServerVerifier
  import opened ScittVerifier
  import Artifacts = ScittArtifacts
  import Client = ClientVerifier
  import Dane

  datatype TierPolicy = ScittWithBadgeFallback | RequireScitt | BadgeWithScittEnhancement

  /** SCITT settings; without a key store the verifier behaves as if SCITT were not configured. */
  datatype ScittSetup = ScittSetup(
    policy: Option<TierPolicy>, keyStorePresent: bool, lib: Artifacts.Library, skew: Duration)
  {
    predicate Active() {
      policy.Some? && keyStorePresent
    }
  }

  /** The key store as a call sees it: the snapshot, and what an on-demand refresh for each artifact would leave. */
  datatype KeyView = KeyView(store: KeyStore, tokenRefresh: Option<KeyStore>, receiptRefresh: Option<KeyStore>)

  function CallFor(setup: ScittSetup, view: KeyView, cert: CertIdentity, headers: Headers, role: Role, now: int): Call {
    Call(view.store, view.tokenRefresh, view.receiptRefresh, cert, headers, role, setup.skew, now)
  }

  /** Present headers are final: no token among them is a failure, never a fallback. */
  function FinalOutcome(attempt: Option<Outcome>): Outcome {
    if attempt.Some? then attempt.value else ScittFailure(MissingTokenField)
  }

  /** A successful SCITT outcome carries the badge it enhances. */
  function Enhance(attempt: Option<Outcome>, badge: Outcome): Outcome {
    match attempt
    case Some(ScittVerified(token, tier, fp, _)) =>
      ScittVerified(token, tier, fp, if badge.Verified? then Some(badge.badge) else None)
    case _ => FinalOutcome(attempt)
  }

  // ----- servers -----

  /** `attempt` is what SCITT verification yields for this call. */
  ghost function ServerWithScitt(
    cfg: Config, s: CacheState, setup: ScittSetup, fqdn: string, cert: CertIdentity, headers: Headers,
    attempt: Option<Outcome>, w: World): (CacheState, Outcome)
  {
    match NewFqdn(fqdn)
    case Err(e) => (s, ParseFailure(e))
    case Ok(host) =>
      if !setup.Active() then Verify(cfg, s, host, cert, w)
      else
        match setup.policy.value
        case BadgeWithScittEnhancement =>
          var (s1, badge) := Verify(cfg, s, host, cert, w);
          if !badge.IsSuccess() || headers.IsEmpty() then (s1, badge) else (s1, Enhance(attempt, badge))
        case policy =>
          if !headers.IsEmpty() then (s, EnforceDane(cfg, cert, w.tlsa, FinalOutcome(attempt)))
          else if policy.RequireScitt? then (s, ScittFailure(MissingTokenField))
          else Verify(cfg, s, host, cert, w)
  }

  // ----- clients -----

  function ClientWithScitt(
    cfg: Config, s: CacheState, setup: ScittSetup, cert: CertIdentity, headers: Headers,
    attempt: Option<Outcome>, w: Client.ClientWorld): (CacheState, Outcome)
  {
    if !setup.Active() then Client.Verify(cfg, s, cert, w)
    else
      match setup.policy.value
      case BadgeWithScittEnhancement =>
        var (s1, badge) := Client.Verify(cfg, s, cert, w);
        if !badge.IsSuccess() || headers.IsEmpty() then (s1, badge) else (s1, Enhance(attempt, badge))
      case policy =>
        if !headers.IsEmpty() then (s, FinalOutcome(attempt))
        else if policy.RequireScitt? then (s, ScittFailure(MissingTokenField))
        else Client.Verify(cfg, s, cert, w)
  }

  // ----- when SCITT verification is attempted -----

  /** A non-empty set of headers is tried at once, except that an enhancement needs a verified badge first. */
  predicate Attempts(setup: ScittSetup, headers: Headers, badgeVerified: bool) {
    setup.Active() && !headers.IsEmpty() && (setup.policy == Some(BadgeWithScittEnhancement) ==> badgeVerified)
  }

  /** The verifier object; both badge verifiers share one badge cache. */
  class AnsVerifier {
    const server: ServerVerifier
    const client: Client.ClientVerifier
    const setup: ScittSetup
    const scittCache: ScittVerificationCache?

    ghost predicate Valid() {
      server.Valid() && client.Valid() && client.cfg == server.cfg && client.cache == server.cache
    }

    constructor (
      server: ServerVerifier, client: Client.ClientVerifier, setup: ScittSetup, scittCache: ScittVerificationCache?)
      requires server.Valid() && client.Valid() && client.cfg == server.cfg && client.cache == server.cache
      ensures Valid() && this.server == server && this.client == client
      ensures this.setup == setup && this.scittCache == scittCache
    {
      this.server, this.client, this.setup, this.scittCache := server, client, setup, scittCache;
    }

    ghost function Found(call: Call): (hits: Hits)
      reads scittCache
    {
      if scittCache == null || call.headers.token.None? then NO_HITS else scittCache.Found(setup.lib, call)
    }

    /** What the SCITT cache holds after a call that was or was not attempted. */
    ghost function CacheAfter(call: Call, attempted: bool): (s: ScittState)
      requires scittCache != null
      reads scittCache
    {
      if attempted then AfterCall(setup.lib, scittCache.State(), call) else scittCache.State()
    }

    method Attempt(call: Call) returns (attempt: Option<Outcome>)
      modifies scittCache
      ensures attempt == Decide(setup.lib, call, old(Found(call)))
      ensures scittCache != null ==> scittCache.State() == AfterCall(setup.lib, old(scittCache.State()), call)
    {
      if scittCache == null {
        return Decide(setup.lib, call, NO_HITS);
      }
      attempt := scittCache.TryScitt(setup.lib, call);
    }

    method VerifyServerWithScitt(
      fqdn: string, cert: CertIdentity, headers: Headers, view: KeyView, now: int, w: World) returns (outcome: Outcome)
      requires Valid()
      modifies server.cache, scittCache
      ensures NewFqdn(fqdn).Ok? ==>
                var call := CallFor(setup, view, cert, headers, Server(NewFqdn(fqdn).value), now);
                (server.State(), outcome)
                == ServerWithScitt(server.cfg, old(server.State()), setup, fqdn, cert, headers,
                                   Decide(setup.lib, call, old(Found(call))), w)
      ensures NewFqdn(fqdn).Err? ==> outcome == ParseFailure(NewFqdn(fqdn).error) && server.State() == old(server.State())
      ensures scittCache != null && NewFqdn(fqdn).Err? ==> scittCache.State() == old(scittCache.State())
      ensures scittCache != null && NewFqdn(fqdn).Ok? ==>
                var host := NewFqdn(fqdn).value;
                var verified := Verify(server.cfg, old(server.State()), host, cert, w).1.IsSuccess();
                scittCache.State() == old(CacheAfter(CallFor(setup, view, cert, headers, Server(host), now),
                                                     Attempts(setup, headers, verified)))
    {
      hide Verify, Decide, NewFqdn, ScittVerifier.AfterCall;
      var parsed := NewFqdn(fqdn);
      if parsed.Err? {
        return ParseFailure(parsed.error);
      }
      var host := parsed.value;
      var call := CallFor(setup, view, cert, headers, Server(host), now);
      if !setup.Active() || (headers.IsEmpty() && setup.policy != Some(RequireScitt)) {
        outcome := server.VerifyServer(host, cert, w);
      } else if headers.IsEmpty() {
        outcome := ScittFailure(MissingTokenField);
      } else if setup.policy == Some(BadgeWithScittEnhancement) {
        var badge := server.VerifyServer(host, cert, w);
        if !badge.IsSuccess() {
          return badge;
        }
        var attempt := Attempt(call);
        outcome := Enhance(attempt, badge);
      } else {
        var attempt := Attempt(call);
        outcome := server.DaneGate(cert, w.tlsa, FinalOutcome(attempt));
      }
    }

    method VerifyClientWithScitt(
      cert: CertIdentity, headers: Headers, view: KeyView, now: int, w: Client.ClientWorld) returns (outcome: Outcome)
      requires Valid()
      modifies client.cache, scittCache
      ensures var call := CallFor(setup, view, cert, headers, Role.Client, now);
              (client.State(), outcome)
              == ClientWithScitt(client.cfg, old(client.State()), setup, cert, headers,
                                 Decide(setup.lib, call, old(Found(call))), w)
      ensures scittCache != null ==>
                var verified := Client.Verify(client.cfg, old(client.State()), cert, w).1.IsSuccess();
                scittCache.State() == old(CacheAfter(CallFor(setup, view, cert, headers, Role.Client, now),
                                                     Attempts(setup, headers, verified)))
    {
      hide Client.Verify, Decide, ScittVerifier.AfterCall;
      var call := CallFor(setup, view, cert, headers, Role.Client, now);
      if !setup.Active() || (headers.IsEmpty() && setup.policy != Some(RequireScitt)) {
        outcome := client.VerifyClient(cert, w);
      } else if headers.IsEmpty() {
        outcome := ScittFailure(MissingTokenField);
      } else if setup.policy == Some(BadgeWithScittEnhancement) {
        var badge := client.VerifyClient(cert, w);
        if !badge.IsSuccess() {
          return badge;
        }
        var attempt := Attempt(call);
        outcome := Enhance(attempt, badge);
      } else {
        var attempt := Attempt(call);
        outcome := FinalOutcome(attempt);
      }
    }
  }
}
