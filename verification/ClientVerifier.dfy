/** Verification of a client certificate by the badge of the version its ANS name claims. */
module ClientVerifier {
  import opened Wrappers
  import opened Text
  import opened Names
  import opened Badges
  import opened BadgeCache
  import opened Outcomes
  import opened Records
  import opened BadgeRules
  import Dane

  /** The two resolver calls of one lookup, the log's answer for the chosen record, and the time of the answers. */
  datatype Lookup = Lookup(forVersion: DnsAnswer, preferred: DnsAnswer, fetch: FetchAnswer, now: nat)

  datatype ClientWorld = ClientWorld(scanAt: nat, first: Lookup, refresh: Lookup)

  /** The record for the certificate's version, or else the preferred one. */
  function Choose(l: Lookup, version: Version): Result<Option<Record>, Dane.DnsError> {
    match FindBadgeForVersion(l.forVersion, version)
    case Ok(None) => FindPreferredBadge(l.preferred)
    case answer => answer
  }

  predicate VersionGone(l: Lookup, version: Version) {
    FindBadgeForVersion(l.forVersion, version) == Ok(None)
  }

  function Remember(cfg: Config, s: CacheState, key: CacheKey, badge: Badge, l: Lookup): CacheState {
    if cfg.caching then Insert(s, key, badge, l.now, cfg.lifetimes.defaultTtl, l.fetch.evicted) else s
  }

  // ----- error handlers -----

  function UsableStale(cfg: Config, s: CacheState, key: CacheKey, now: nat): Option<CachedBadge> {
    match cfg.policy
    case FailClosed => None
    case FailOpenWithCache(maxStaleness) =>
      match GetAllowStale(s, cfg.lifetimes.hardTtl, now, key)
      case Some(cached) => if Elapsed(cached.fetchedAt, now) < maxStaleness then Some(cached) else None
      case None => None
  }

  /** Both error handlers: drop the host on a determinate error, otherwise judge the stale entry if it may be used. */
  function AfterError(
    cfg: Config, s: CacheState, host: string, name: AnsName, cert: CertIdentity, now: nat, unavailable: bool, report: Outcome)
    : (CacheState, Outcome)
  {
    if !unavailable then (InvalidateFqdn(s, host), report)
    else
      match UsableStale(cfg, s, FqdnVersion(host, name.version), now)
      case Some(cached) => (s, VerifyClientBadge(cached.badge, cert, name))
      case None => (s, report)
  }

  // ----- the whole verification -----

  function Refresh(cfg: Config, s: CacheState, host: string, name: AnsName, cert: CertIdentity, l: Lookup)
    : (CacheState, Outcome)
  {
    var key := FqdnVersion(host, name.version);
    var dropped := Invalidate(s, key);
    match Choose(l, name.version)
    case Err(e) => (dropped, DnsFailure(e))
    case Ok(None) => (dropped, NotAnsAgent)
    case Ok(Some(record)) =>
      match FetchOne(cfg, record.url, l.fetch.result)
      case Err(e) => (dropped, TlogFailure(e))
      case Ok(badge) => (Remember(cfg, dropped, key, badge, l), VerifyClientBadge(badge, cert, name))
  }

  function LookUpAndVerify(cfg: Config, s: CacheState, host: string, name: AnsName, cert: CertIdentity, w: ClientWorld)
    : (CacheState, Outcome)
  {
    var l := w.first;
    var key := FqdnVersion(host, name.version);
    var s1 := if VersionGone(l, name.version) then Invalidate(s, key) else s;
    match Choose(l, name.version)
    case Err(e) => AfterError(cfg, s1, host, name, cert, l.now, e.IsUnavailable(), DnsFailure(e))
    case Ok(None) => (InvalidateFqdn(s1, host), NotAnsAgent)
    case Ok(Some(record)) =>
      match FetchOne(cfg, record.url, l.fetch.result)
      case Err(e) => AfterError(cfg, s1, host, name, cert, l.now, e.IsUnavailable(), TlogFailure(e))
      case Ok(badge) =>
        var s2 := Remember(cfg, s1, key, badge, l);
        var outcome := VerifyClientBadge(badge, cert, name);
        if outcome.FingerprintMismatch? then Refresh(cfg, s2, host, name, cert, w.refresh) else (s2, outcome)
  }

  function VerifyNamed(cfg: Config, s: CacheState, host: string, name: AnsName, cert: CertIdentity, w: ClientWorld)
    : (CacheState, Outcome)
  {
    match Get(s, cfg.lifetimes.hardTtl, w.scanAt, FqdnVersion(host, name.version))
    case Some(cached) =>
      var outcome := VerifyClientBadge(cached.badge, cert, name);
      if outcome.FingerprintMismatch? then Refresh(cfg, s, host, name, cert, w.refresh) else (s, outcome)
    case None => LookUpAndVerify(cfg, s, host, name, cert, w)
  }

  /** The host and ANS name a certificate claims, checked in the verifier's order. */
  function Claims(cert: CertIdentity): Result<(string, AnsName), Outcome> {
    if cert.Fqdn().None? then Err(CertFailure(NoCommonName))
    else
      match NewFqdn(cert.Fqdn().value)
      case Err(e) => Err(ParseFailure(e))
      case Ok(host) =>
        if cert.AnsName().None? then Err(CertFailure(NoUriSan)) else Ok((host, cert.AnsName().value))
  }

  function Verify(cfg: Config, s: CacheState, cert: CertIdentity, w: ClientWorld): (CacheState, Outcome) {
    match Claims(cert)
    case Err(outcome) => (s, outcome)
    case Ok((host, name)) => VerifyNamed(cfg, s, host, name, cert, w)
  }

  // ----- the verifier object -----

  class ClientVerifier {
    const cfg: Config
    const cache: BadgeCache?

    ghost predicate Valid() {
      && (cfg.caching <==> cache != null)
      && (cache != null ==> cache.config == cfg.lifetimes)
    }

    ghost function State(): (s: CacheState)
      reads cache
    {
      if cache == null then EMPTY else cache.State()
    }

    constructor (cfg: Config, cache: BadgeCache?)
      requires cfg.caching <==> cache != null
      requires cache != null ==> cache.config == cfg.lifetimes
      ensures Valid() && this.cfg == cfg && this.cache == cache
    {
      this.cfg := cfg;
      this.cache := cache;
    }

    method ForgetVersion(key: CacheKey)
      modifies cache
      ensures State() == Invalidate(old(State()), key)
    {
      if cache != null {
        cache.InvalidateKey(key);
      }
    }

    method ForgetHost(host: string)
      modifies cache
      ensures State() == InvalidateFqdn(old(State()), host)
    {
      if cache != null {
        cache.InvalidateHost(host);
      }
    }

    method Store(key: CacheKey, badge: Badge, l: Lookup)
      requires Valid()
      modifies cache
      ensures State() == Remember(cfg, old(State()), key, badge, l)
    {
      if cache != null {
        cache.InsertWithTtl(key, badge, l.now, cfg.lifetimes.defaultTtl, l.fetch.evicted);
      }
    }

    method HandleError(host: string, name: AnsName, cert: CertIdentity, now: nat, unavailable: bool, report: Outcome)
      returns (outcome: Outcome)
      requires Valid()
      modifies cache
      ensures (State(), outcome) == AfterError(cfg, old(State()), host, name, cert, now, unavailable, report)
    {
      if !unavailable {
        ForgetHost(host);
        return report;
      }
      if cfg.policy.FailOpenWithCache? && cache != null {
        var cached := GetAllowStale(cache.State(), cfg.lifetimes.hardTtl, now, FqdnVersion(host, name.version));
        if cached.Some? && Elapsed(cached.value.fetchedAt, now) < cfg.policy.maxStaleness {
          return VerifyClientBadge(cached.value.badge, cert, name);
        }
      }
      return report;
    }

    method VerifyWithRefresh(host: string, name: AnsName, cert: CertIdentity, l: Lookup) returns (outcome: Outcome)
      requires Valid()
      modifies cache
      ensures (State(), outcome) == Refresh(cfg, old(State()), host, name, cert, l)
    {
      var key := FqdnVersion(host, name.version);
      ForgetVersion(key);
      var found := FindBadgeForVersion(l.forVersion, name.version);
      if found == Ok(None) {
        found := FindPreferredBadge(l.preferred);
      }
      if found.Err? {
        return DnsFailure(found.error);
      }
      if found.value.None? {
        return NotAnsAgent;
      }
      var fetched := FetchOne(cfg, found.value.value.url, l.fetch.result);
      if fetched.Err? {
        return TlogFailure(fetched.error);
      }
      Store(key, fetched.value, l);
      return VerifyClientBadge(fetched.value, cert, name);
    }

    method VerifyFetched(host: string, name: AnsName, cert: CertIdentity, w: ClientWorld) returns (outcome: Outcome)
      requires Valid()
      modifies cache
      ensures (State(), outcome) == LookUpAndVerify(cfg, old(State()), host, name, cert, w)
    {
      var l := w.first;
      var key := FqdnVersion(host, name.version);
      var found := FindBadgeForVersion(l.forVersion, name.version);
      if found == Ok(None) {
        ForgetVersion(key);
        found := FindPreferredBadge(l.preferred);
      }
      if found.Err? {
        outcome := HandleError(host, name, cert, l.now, found.error.IsUnavailable(), DnsFailure(found.error));
        return;
      }
      if found.value.None? {
        ForgetHost(host);
        return NotAnsAgent;
      }
      var fetched := FetchOne(cfg, found.value.value.url, l.fetch.result);
      if fetched.Err? {
        outcome := HandleError(host, name, cert, l.now, fetched.error.IsUnavailable(), TlogFailure(fetched.error));
        return;
      }
      Store(key, fetched.value, l);
      outcome := VerifyClientBadge(fetched.value, cert, name);
      if outcome.FingerprintMismatch? {
        outcome := VerifyWithRefresh(host, name, cert, w.refresh);
      }
    }

    method VerifyClient(cert: CertIdentity, w: ClientWorld) returns (outcome: Outcome)
      requires Valid()
      modifies cache
      ensures (State(), outcome) == Verify(cfg, old(State()), cert, w)
    {
      var claims := Claims(cert);
      if claims.Err? {
        return claims.error;
      }
      var (host, name) := claims.value;
      if cache != null {
        var cached := Get(cache.State(), cfg.lifetimes.hardTtl, w.scanAt, FqdnVersion(host, name.version));
        if cached.Some? {
          outcome := VerifyClientBadge(cached.value.badge, cert, name);
          if outcome.FingerprintMismatch? {
            outcome := VerifyWithRefresh(host, name, cert, w.refresh);
          }
          return;
        }
      }
      outcome := VerifyFetched(host, name, cert, w);
    }
  }
}
