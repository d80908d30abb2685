/** What one client verification guarantees about its outcome and about the cache it leaves. */
module ClientProperties {
  import opened Wrappers
  import opened Text
  import opened Names
  import opened Badges
  import opened BadgeCache
  import opened Outcomes
  import opened Records
  import opened BadgeRules
  import opened ClientVerifier
  import Dane

  /** `badge` is the log's answer, at time `at`, for the record this lookup chose, and passed every fetch check. */
  ghost predicate LookedUp(cfg: Config, l: Lookup, version: Version, badge: Badge, at: nat) {
    && at == l.now
    && Choose(l, version).Ok? && Choose(l, version).value.Some?
    && TrustedUrl(cfg, Choose(l, version).value.value.url)
    && l.fetch.result == Ok(badge) && !badge.status.Unknown?
  }

  /** No answer and no adverse evidence: the resolver or the log was down. */
  ghost predicate ClientOutage(cfg: Config, l: Lookup, version: Version) {
    match Choose(l, version)
    case Err(e) => !Dane.DnsAnswered(e)
    case Ok(None) => false
    case Ok(Some(record)) =>
      var fetched := FetchOne(cfg, record.url, l.fetch.result);
      fetched.Err? && !LogAnswered(fetched.error)
  }

  /** A determinate answer: nothing published, or an adverse DNS or log error. */
  ghost predicate ClientAdverse(cfg: Config, l: Lookup, version: Version) {
    match Choose(l, version)
    case Err(e) => Dane.DnsAnswered(e)
    case Ok(None) => true
    case Ok(Some(record)) =>
      var fetched := FetchOne(cfg, record.url, l.fetch.result);
      fetched.Err? && LogAnswered(fetched.error)
  }

  ghost predicate Consulted(cfg: Config, s: CacheState, host: string, name: AnsName, w: ClientWorld) {
    Get(s, cfg.lifetimes.hardTtl, w.scanAt, FqdnVersion(host, name.version)).None?
  }

  /** The entry the verification starts from, or fetched first, mismatched, so the refresh ran. */
  ghost predicate Refreshed(cfg: Config, s: CacheState, host: string, name: AnsName, cert: CertIdentity, w: ClientWorld) {
    match Get(s, cfg.lifetimes.hardTtl, w.scanAt, FqdnVersion(host, name.version))
    case Some(cached) => ClientMismatch(cached.badge, cert)
    case None =>
      exists b :: LookedUp(cfg, w.first, name.version, b, w.first.now) && ClientMismatch(b, cert)
  }

  /** No earlier entry of this key may survive the verification. */
  ghost predicate ClientPurges(
    cfg: Config, s: CacheState, host: string, name: AnsName, cert: CertIdentity, w: ClientWorld, key: CacheKey)
  {
    || (Consulted(cfg, s, host, name, w) && key.FqdnVersion? && key.host == host && ClientAdverse(cfg, w.first, name.version))
    || (key == FqdnVersion(host, name.version)
        && (Refreshed(cfg, s, host, name, cert, w)
            || (Consulted(cfg, s, host, name, w) && VersionGone(w.first, name.version))))
  }

  /**
   * What the verification can have left under `key`: the badge of its last lookup, for the certificate's
   * own version. When the refresh ran, a badge of the first lookup is not left.
   */
  ghost predicate ClientLeft(
    cfg: Config, s: CacheState, host: string, name: AnsName, cert: CertIdentity, w: ClientWorld, key: CacheKey,
    entry: CachedBadge)
  {
    && cfg.caching && key == FqdnVersion(host, name.version) && entry.ttl == cfg.lifetimes.defaultTtl
    && if Refreshed(cfg, s, host, name, cert, w) then LookedUp(cfg, w.refresh, name.version, entry.badge, entry.fetchedAt)
       else Consulted(cfg, s, host, name, w) && LookedUp(cfg, w.first, name.version, entry.badge, entry.fetchedAt)
  }

  ghost predicate ClientStores(
    cfg: Config, s: CacheState, host: string, name: AnsName, cert: CertIdentity, w: ClientWorld, key: CacheKey)
  {
    exists entry :: ClientLeft(cfg, s, host, name, cert, w, key, entry)
  }

  ghost predicate SameEntry(s: CacheState, s': CacheState, key: CacheKey) {
    key in s.store && key in s'.store && s'.store[key] == s.store[key]
  }

  ghost predicate ClientOrigin(
    cfg: Config, s: CacheState, s': CacheState, host: string, name: AnsName, cert: CertIdentity, w: ClientWorld, key: CacheKey)
  {
    key in s'.store ==>
      || (SameEntry(s, s', key)
          && !ClientPurges(cfg, s, host, name, cert, w, key) && !ClientStores(cfg, s, host, name, cert, w, key))
      || ClientLeft(cfg, s, host, name, cert, w, key, s'.store[key])
  }

  /** The entry holds this badge, stored now with the default lifetime. */
  ghost predicate Holds(cfg: Config, s: CacheState, key: CacheKey, l: Lookup, version: Version) {
    && cfg.caching && key in s.store && s.store[key].ttl == cfg.lifetimes.defaultTtl
    && LookedUp(cfg, l, version, s.store[key].badge, s.store[key].fetchedAt)
  }

  lemma RefreshEffect(
    cfg: Config, s: CacheState, host: string, name: AnsName, cert: CertIdentity, l: Lookup, key: CacheKey)
    requires Indexed(s)
    ensures var s' := Refresh(cfg, s, host, name, cert, l).0;
            var k := FqdnVersion(host, name.version);
            && Indexed(s')
            && (key in s'.store ==> if key == k then Holds(cfg, s', key, l, name.version) else SameEntry(s, s', key))
  {
    var k := FqdnVersion(host, name.version);
    var dropped := Invalidate(s, k);
    OpKeepsIndexed(s, InvalidateOp(k));
    if Choose(l, name.version).Ok? && Choose(l, name.version).value.Some? {
      var url := Choose(l, name.version).value.value.url;
      if FetchOne(cfg, url, l.fetch.result).Ok? {
        var badge := FetchOne(cfg, url, l.fetch.result).value;
        FetchedMeans(cfg, url, l.fetch.result, badge);
        OpKeepsIndexed(dropped, InsertOp(k, badge, l.now, cfg.lifetimes.defaultTtl, l.fetch.evicted));
      }
    }
  }

  lemma ErrorEffect(
    cfg: Config, s: CacheState, host: string, name: AnsName, cert: CertIdentity, now: nat, unavailable: bool,
    report: Outcome, key: CacheKey)
    requires Indexed(s) && Lower(host) == host
    ensures var s' := AfterError(cfg, s, host, name, cert, now, unavailable, report).0;
            && Indexed(s')
            && (key in s'.store ==> key in s.store && s'.store[key] == s.store[key])
            && (key in s'.store && !unavailable ==> !(key.FqdnVersion? && key.host == host))
  {
    OpKeepsIndexed(s, InvalidateFqdnOp(host));
    InvalidatedHostIsGone(s, host);
  }

  lemma RememberEffect(cfg: Config, s: CacheState, host: string, version: Version, badge: Badge, l: Lookup, key: CacheKey)
    requires Indexed(s) && LookedUp(cfg, l, version, badge, l.now)
    ensures var k := FqdnVersion(host, version);
            var s' := Remember(cfg, s, k, badge, l);
            && Indexed(s')
            && (key in s'.store ==> if cfg.caching && key == k then Holds(cfg, s', key, l, version) else SameEntry(s, s', key))
  {
    OpKeepsIndexed(s, InsertOp(FqdnVersion(host, version), badge, l.now, cfg.lifetimes.defaultTtl, l.fetch.evicted));
  }

  lemma LookUpEffect(
    cfg: Config, s: CacheState, host: string, name: AnsName, cert: CertIdentity, w: ClientWorld, key: CacheKey)
    requires Indexed(s) && Lower(host) == host && Consulted(cfg, s, host, name, w)
    ensures var s' := LookUpAndVerify(cfg, s, host, name, cert, w).0;
            Indexed(s') && ClientOrigin(cfg, s, s', host, name, cert, w, key)
  {
    hide VerifyClientBadge, Get, UsableStale, FindBadgeForVersion, Refresh, AfterError;
    var k, l := FqdnVersion(host, name.version), w.first;
    var s1 := if VersionGone(l, name.version) then Invalidate(s, k) else s;
    OpKeepsIndexed(s, InvalidateOp(k));
    match Choose(l, name.version)
    case Err(e) => ErrorEffect(cfg, s1, host, name, cert, l.now, e.IsUnavailable(), DnsFailure(e), key);
    case Ok(None) =>
      OpKeepsIndexed(s1, InvalidateFqdnOp(host));
      InvalidatedHostIsGone(s1, host);
    case Ok(Some(record)) =>
      match FetchOne(cfg, record.url, l.fetch.result)
      case Err(e) => ErrorEffect(cfg, s1, host, name, cert, l.now, e.IsUnavailable(), TlogFailure(e), key);
      case Ok(badge) =>
        FetchedMeans(cfg, record.url, l.fetch.result, badge);
        FetchedEffect(cfg, s, s1, host, name, cert, w, badge, key);
  }

  /** After a fetch: the badge is stored, and on a mismatch the refresh replaces or drops it. */
  lemma FetchedEffect(
    cfg: Config, s: CacheState, s1: CacheState, host: string, name: AnsName, cert: CertIdentity, w: ClientWorld, badge: Badge,
    key: CacheKey)
    requires Indexed(s1) && Consulted(cfg, s, host, name, w) && LookedUp(cfg, w.first, name.version, badge, w.first.now)
    requires s1 == if VersionGone(w.first, name.version) then Invalidate(s, FqdnVersion(host, name.version)) else s
    ensures var stored := Remember(cfg, s1, FqdnVersion(host, name.version), badge, w.first);
            var s' := if VerifyClientBadge(badge, cert, name).FingerprintMismatch?
                      then Refresh(cfg, stored, host, name, cert, w.refresh).0 else stored;
            Indexed(s') && ClientOrigin(cfg, s, s', host, name, cert, w, key)
  {
    hide VerifyClientBadge, Get, Remember, Refresh, FindBadgeForVersion;
    var k := FqdnVersion(host, name.version);
    RememberEffect(cfg, s1, host, name.version, badge, w.first, key);
    ClientMismatchMeans(badge, cert, name);
    var stored := Remember(cfg, s1, k, badge, w.first);
    if VerifyClientBadge(badge, cert, name).FingerprintMismatch? {
      assert Refreshed(cfg, s, host, name, cert, w);
      RefreshEffect(cfg, stored, host, name, cert, w.refresh, key);
    } else {
      assert !Refreshed(cfg, s, host, name, cert, w);
    }
  }

  /**
   * Every cache entry after a client verification is an earlier one, not stored over, or the badge of its last
   * lookup, for the certificate's own version; adverse answers leave no earlier entry of the host, a
   * mismatch or a vanished version none of that version.
   */
  lemma ClientEntry(
    cfg: Config, s: CacheState, host: string, name: AnsName, cert: CertIdentity, w: ClientWorld, key: CacheKey)
    requires Indexed(s) && Lower(host) == host
    ensures var s' := VerifyNamed(cfg, s, host, name, cert, w).0;
            Indexed(s') && ClientOrigin(cfg, s, s', host, name, cert, w, key)
  {
    if Consulted(cfg, s, host, name, w) {
      LookUpEffect(cfg, s, host, name, cert, w, key);
    } else {
      RefreshEffect(cfg, s, host, name, cert, w.refresh, key);
    }
  }

  // ----- what a refresh leaves alone -----

  /** Whether the lookup ends in a badge, and the store then makes room. */
  ghost predicate Fetches(cfg: Config, l: Lookup, version: Version) {
    exists badge :: LookedUp(cfg, l, version, badge, l.now)
  }

  /**
   * The refresh path disturbs one version only: every other entry, of this host or another, survives
   * whatever the second lookup answers, a determinate error included, unless a new badge evicts it.
   */
  lemma RefreshSparesOtherVersions(
    cfg: Config, s: CacheState, host: string, name: AnsName, cert: CertIdentity, l: Lookup, key: CacheKey)
    requires key != FqdnVersion(host, name.version)
    ensures var s' := Refresh(cfg, s, host, name, cert, l).0;
            && (key in s'.store <==> key in s.store && !(cfg.caching && Fetches(cfg, l, name.version) && key in l.fetch.evicted))
            && (key in s'.store ==> s'.store[key] == s.store[key])
  {
    if Choose(l, name.version).Ok? && Choose(l, name.version).value.Some? {
      var url := Choose(l, name.version).value.value.url;
      if FetchOne(cfg, url, l.fetch.result).Ok? {
        assert LookedUp(cfg, l, name.version, l.fetch.result.value, l.now);
      }
    }
  }

  lemma AdverseFetchesNothing(cfg: Config, l: Lookup, version: Version)
    requires ClientAdverse(cfg, l, version) || ClientOutage(cfg, l, version)
    ensures !Fetches(cfg, l, version)
  {}

  /** What the cache alone can answer for this certificate while every lookup is an outage. */
  ghost predicate CacheVouches(
    cfg: Config, s: CacheState, host: string, name: AnsName, cert: CertIdentity, w: ClientWorld)
  {
    var key := FqdnVersion(host, name.version);
    if key in s.store && FreshVersion(cfg, s, key, w.scanAt, s.store[key].badge)
    then ClientEvidence(s.store[key].badge, cert, name)
    else
      && !VersionGone(w.first, name.version)
      && key in s.store && StaleVersion(cfg, s, key, w.first.now, s.store[key].badge)
      && ClientEvidence(s.store[key].badge, cert, name)
  }

  /** While every lookup is an outage a client verifies exactly when the cache alone vouches for it. */
  lemma ClientOutageSucceedsIff(
    cfg: Config, s: CacheState, host: string, name: AnsName, cert: CertIdentity, w: ClientWorld)
    requires name.Valid() && ClientOutage(cfg, w.first, name.version) && ClientOutage(cfg, w.refresh, name.version)
    ensures VerifyNamed(cfg, s, host, name, cert, w).1.IsSuccess() <==> CacheVouches(cfg, s, host, name, cert, w)
  {
    hide ClientEvidence, VerifyClientBadge, FindBadgeForVersion;
    var key := FqdnVersion(host, name.version);
    if key in s.store {
      BadgeDecisions(s.store[key].badge, cert, host, name);
    }
    MismatchFails(s, cert, name);
  }

  lemma MismatchFails(s: CacheState, cert: CertIdentity, name: AnsName)
    ensures forall key :: key in s.store && VerifyClientBadge(s.store[key].badge, cert, name).FingerprintMismatch? ==>
                            !VerifyClientBadge(s.store[key].badge, cert, name).IsSuccess()
  {}

  /** The earlier entries that a badge fetched before the refresh did not push out. */
  ghost function MadeRoom(cfg: Config, s: CacheState, host: string, name: AnsName, w: ClientWorld): CacheState {
    if cfg.caching && Consulted(cfg, s, host, name, w) then Evict(s, w.first.fetch.evicted) else s
  }

  /**
   * A mismatch, in the cache or in the first fetch, whose refresh finds no badge: the version's own entry
   * is gone, and every other one is left unless the first fetch evicted it.
   */
  lemma FailedRefreshLeaves(
    cfg: Config, s: CacheState, host: string, name: AnsName, cert: CertIdentity, w: ClientWorld, key: CacheKey)
    requires Refreshed(cfg, s, host, name, cert, w) && !Fetches(cfg, w.refresh, name.version)
    ensures var s' := VerifyNamed(cfg, s, host, name, cert, w).0;
            if key == FqdnVersion(host, name.version) then key !in s'.store
            else (key in s'.store <==> key in MadeRoom(cfg, s, host, name, w).store)
                 && (key in s'.store ==> s'.store[key] == s.store[key])
  {
    hide VerifyClientBadge, FindBadgeForVersion, ClientMismatch;
    var cached := Get(s, cfg.lifetimes.hardTtl, w.scanAt, FqdnVersion(host, name.version));
    if cached.Some? {
      ClientMismatchMeans(cached.value.badge, cert, name);
    }
    var own := FqdnVersion(host, name.version);
    var before := s;
    if Consulted(cfg, s, host, name, w) {
      var badge :| LookedUp(cfg, w.first, name.version, badge, w.first.now) && ClientMismatch(badge, cert);
      ClientMismatchMeans(badge, cert, name);
      FetchedMeans(cfg, Choose(w.first, name.version).value.value.url, w.first.fetch.result, badge);
      var s1 := if VersionGone(w.first, name.version) then Invalidate(s, own) else s;
      before := Remember(cfg, s1, own, badge, w.first);
    }
    assert VerifyNamed(cfg, s, host, name, cert, w) == Refresh(cfg, before, host, name, cert, w.refresh);
    if key == own {
      RefreshFindsNothing(cfg, before, host, name, cert, w.refresh);
    } else {
      RefreshSparesOtherVersions(cfg, before, host, name, cert, w.refresh, key);
    }
  }

  lemma RefreshFindsNothing(cfg: Config, s: CacheState, host: string, name: AnsName, cert: CertIdentity, l: Lookup)
    requires !Fetches(cfg, l, name.version)
    ensures FqdnVersion(host, name.version) !in Refresh(cfg, s, host, name, cert, l).0.store
  {
    if Choose(l, name.version).Ok? && Choose(l, name.version).value.Some? {
      var url := Choose(l, name.version).value.value.url;
      if FetchOne(cfg, url, l.fetch.result).Ok? {
        assert LookedUp(cfg, l, name.version, l.fetch.result.value, l.now);
      }
    }
  }

  /**
   * Hence what a client's refresh meets does not reject the host: after a mismatch whose refresh finds no
   * badge, a determinate answer included, a later outage verifies a certificate of another version
   * exactly when the cache vouched for it before, less what the first fetch evicted.
   */
  lemma RejectionSparesOtherVersions(
    cfg: Config, s: CacheState, host: string, name: AnsName, cert: CertIdentity, w: ClientWorld,
    other: AnsName, otherCert: CertIdentity, next: ClientWorld)
    requires Refreshed(cfg, s, host, name, cert, w) && !Fetches(cfg, w.refresh, name.version)
    requires other.version != name.version && other.Valid()
    requires ClientOutage(cfg, next.first, other.version) && ClientOutage(cfg, next.refresh, other.version)
    ensures var s' := VerifyNamed(cfg, s, host, name, cert, w).0;
            && FqdnVersion(host, name.version) !in s'.store
            && (VerifyNamed(cfg, s', host, other, otherCert, next).1.IsSuccess()
                <==> CacheVouches(cfg, MadeRoom(cfg, s, host, name, w), host, other, otherCert, next))
  {
    hide Refreshed, Fetches, ClientOutage, Consulted, VerifyNamed, ClientEvidence;
    var s' := VerifyNamed(cfg, s, host, name, cert, w).0;
    FailedRefreshLeaves(cfg, s, host, name, cert, w, FqdnVersion(host, name.version));
    FailedRefreshLeaves(cfg, s, host, name, cert, w, FqdnVersion(host, other.version));
    ClientOutageSucceedsIff(cfg, s', host, other, otherCert, next);
  }

  /** A client success by a fetched badge, kept by the store, is answered by the cache alone until its lifetime is over. */
  lemma ClientSuccessIsCached(
    cfg: Config, s: CacheState, host: string, name: AnsName, cert: CertIdentity, w: ClientWorld, next: ClientWorld, badge: Badge)
    requires cfg.caching && name.Valid() && Consulted(cfg, s, host, name, w)
    requires LookedUp(cfg, w.first, name.version, badge, w.first.now) && ClientEvidence(badge, cert, name)
    requires w.first.fetch.evicted == {}
    requires Within(w.first.now, next.scanAt, cfg.lifetimes.defaultTtl)
    requires Within(w.first.now, next.scanAt, cfg.lifetimes.hardTtl)
    ensures var (s', outcome) := VerifyNamed(cfg, s, host, name, cert, w);
            outcome.IsSuccess() && VerifyNamed(cfg, s', host, name, cert, next) == (s', outcome)
  {
    var url := Choose(w.first, name.version).value.value.url;
    FetchedMeans(cfg, url, w.first.fetch.result, badge);
    BadgeDecisions(badge, cert, host, name);
    var key := FqdnVersion(host, name.version);
    var s1 := if VersionGone(w.first, name.version) then Invalidate(s, key) else s;
    InsertedIsFound(s1, key, badge, w.first.now, cfg.lifetimes.defaultTtl, cfg.lifetimes.hardTtl, next.scanAt, key);
  }

  predicate FirstUsable(uris: seq<string>, i: nat) {
    i < |uris| && ParseAnsName(uris[i]).Ok? && forall j :: 0 <= j < i ==> ParseAnsName(uris[j]).Err?
  }

  /** What a certificate claims: its first DNS name, or else its common name, and its first usable ANS name. */
  ghost predicate ClaimedBy(cert: CertIdentity, host: string, name: AnsName) {
    && (if cert.dnsSans != [] then NewFqdn(cert.dnsSans[0]) == Ok(host)
        else cert.commonName.Some? && NewFqdn(cert.commonName.value) == Ok(host))
    && exists i: nat :: FirstUsable(cert.uriSans, i) && ParseAnsName(cert.uriSans[i]) == Ok(name)
  }

  lemma ClaimsMeans(cert: CertIdentity, host: string, name: AnsName)
    ensures Claims(cert) == Ok((host, name)) <==> ClaimedBy(cert, host, name)
  {
    hide ParseAnsName, NewFqdn;
    FirstAnsNameMeans(cert.uriSans);
    if i: nat :| FirstUsable(cert.uriSans, i) && ParseAnsName(cert.uriSans[i]) == Ok(name)
                 && FirstAnsName(cert.uriSans).Some? {
      var k: nat :| FirstUsable(cert.uriSans, k) && ParseAnsName(cert.uriSans[k]) == Ok(FirstAnsName(cert.uriSans).value);
      UsableIsUnique(cert.uriSans, i, k);
    }
  }

  lemma UsableIsUnique(uris: seq<string>, i: nat, k: nat)
    requires FirstUsable(uris, i) && FirstUsable(uris, k)
    ensures i == k
  {
    hide ParseAnsName;
  }

  lemma {:induction false} FirstAnsNameMeans(uris: seq<string>)
    ensures FirstAnsName(uris) == None ==> forall j :: 0 <= j < |uris| ==> ParseAnsName(uris[j]).Err?
    ensures FirstAnsName(uris).Some? ==>
              exists i: nat :: FirstUsable(uris, i) && ParseAnsName(uris[i]) == Ok(FirstAnsName(uris).value)
  {
    hide ParseAnsName;
    if uris != [] {
      var rest := uris[1..];
      FirstAnsNameMeans(rest);
      if ParseAnsName(uris[0]).Ok? {
        assert FirstUsable(uris, 0);
      } else if FirstAnsName(rest).Some? {
        var i: nat :| FirstUsable(rest, i) && ParseAnsName(rest[i]) == Ok(FirstAnsName(rest).value);
        assert forall j :: 0 < j <= i + 1 ==> uris[j] == rest[j - 1];
        assert FirstUsable(uris, i + 1);
      } else {
        assert forall j :: 0 < j < |uris| ==> uris[j] == rest[j - 1];
      }
    }
  }

  // ----- soundness of success -----

  ghost predicate FreshVersion(cfg: Config, s: CacheState, key: CacheKey, now: nat, badge: Badge) {
    && key in s.store && s.store[key].badge == badge
    && Within(s.store[key].fetchedAt, now, s.store[key].ttl)
    && Within(s.store[key].fetchedAt, now, cfg.lifetimes.hardTtl)
  }

  ghost predicate StaleVersion(cfg: Config, s: CacheState, key: CacheKey, now: nat, badge: Badge) {
    && cfg.policy.FailOpenWithCache?
    && key in s.store && s.store[key].badge == badge
    && Within(s.store[key].fetchedAt, now, cfg.policy.maxStaleness)
    && Within(s.store[key].fetchedAt, now, cfg.lifetimes.hardTtl)
  }

  /** Stale evidence needs an outage, and the version must not be known to be gone. */
  ghost predicate ClientSource(cfg: Config, s: CacheState, host: string, name: AnsName, w: ClientWorld, badge: Badge) {
    var key := FqdnVersion(host, name.version);
    || LookedUp(cfg, w.first, name.version, badge, w.first.now)
    || LookedUp(cfg, w.refresh, name.version, badge, w.refresh.now)
    || FreshVersion(cfg, s, key, w.scanAt, badge)
    || (ClientOutage(cfg, w.first, name.version) && !VersionGone(w.first, name.version)
        && StaleVersion(cfg, s, key, w.first.now, badge))
  }

  /**
   * Success is sound with provenance, for the host and the ANS name the certificate itself carries;
   * in particular the badge names exactly the certificate's version.
   */
  lemma ClientSuccess(cfg: Config, s: CacheState, cert: CertIdentity, w: ClientWorld)
    ensures var outcome := Verify(cfg, s, cert, w).1;
            outcome.IsSuccess() ==>
              && Claims(cert).Ok?
              && var (host, name) := Claims(cert).value;
              && CanonicalHost(host) && name.Valid()
              && outcome.Verified? && outcome.fingerprint == cert.fingerprint
              && ClientEvidence(outcome.badge, cert, name)
              && ClientSource(cfg, s, host, name, w, outcome.badge)
  {
    if Claims(cert).Ok? {
      var (host, name) := Claims(cert).value;
      FqdnCanonical(cert.Fqdn().value);
      NamedSuccess(cfg, s, host, name, cert, w);
    }
  }

  lemma NamedSuccess(cfg: Config, s: CacheState, host: string, name: AnsName, cert: CertIdentity, w: ClientWorld)
    requires name.Valid()
    ensures var outcome := VerifyNamed(cfg, s, host, name, cert, w).1;
            outcome.IsSuccess() ==>
              && outcome.Verified? && outcome.fingerprint == cert.fingerprint
              && ClientEvidence(outcome.badge, cert, name)
              && ClientSource(cfg, s, host, name, w, outcome.badge)
  {
    var outcome := VerifyNamed(cfg, s, host, name, cert, w).1;
    if outcome.IsSuccess() {
      assert exists b :: outcome == VerifyClientBadge(b, cert, name) && ClientSource(cfg, s, host, name, w, b) by {
        SuccessIsAVerdict(cfg, s, host, name, cert, w);
      }
      var b :| outcome == VerifyClientBadge(b, cert, name) && ClientSource(cfg, s, host, name, w, b);
      BadgeDecisions(b, cert, host, name);
    }
  }

  lemma RefreshVerdict(cfg: Config, s: CacheState, host: string, name: AnsName, cert: CertIdentity, l: Lookup)
    ensures var outcome := Refresh(cfg, s, host, name, cert, l).1;
            outcome.IsSuccess() ==>
              exists b :: outcome == VerifyClientBadge(b, cert, name) && LookedUp(cfg, l, name.version, b, l.now)
  {
    if Choose(l, name.version).Ok? && Choose(l, name.version).value.Some? {
      var url := Choose(l, name.version).value.value.url;
      if FetchOne(cfg, url, l.fetch.result).Ok? {
        FetchedMeans(cfg, url, l.fetch.result, FetchOne(cfg, url, l.fetch.result).value);
      }
    }
  }

  lemma SuccessIsAVerdict(cfg: Config, s: CacheState, host: string, name: AnsName, cert: CertIdentity, w: ClientWorld)
    requires VerifyNamed(cfg, s, host, name, cert, w).1.IsSuccess()
    ensures exists b :: VerifyNamed(cfg, s, host, name, cert, w).1 == VerifyClientBadge(b, cert, name)
                        && ClientSource(cfg, s, host, name, w, b)
  {
    var key, l := FqdnVersion(host, name.version), w.first;
    match Get(s, cfg.lifetimes.hardTtl, w.scanAt, key)
    case Some(cached) =>
      if VerifyClientBadge(cached.badge, cert, name).FingerprintMismatch? {
        RefreshVerdict(cfg, s, host, name, cert, w.refresh);
      } else {
        assert FreshVersion(cfg, s, key, w.scanAt, cached.badge);
      }
    case None => LookUpVerdict(cfg, s, host, name, cert, w);
  }

  lemma LookUpVerdict(cfg: Config, s: CacheState, host: string, name: AnsName, cert: CertIdentity, w: ClientWorld)
    requires LookUpAndVerify(cfg, s, host, name, cert, w).1.IsSuccess()
    ensures exists b :: LookUpAndVerify(cfg, s, host, name, cert, w).1 == VerifyClientBadge(b, cert, name)
                        && ClientSource(cfg, s, host, name, w, b)
  {
    var key, l := FqdnVersion(host, name.version), w.first;
    var s1 := if VersionGone(l, name.version) then Invalidate(s, key) else s;
    assert VersionGone(l, name.version) ==> key !in s1.store;
    var stale := UsableStale(cfg, s1, key, l.now);
    if stale.Some? && ClientOutage(cfg, l, name.version) {
      assert StaleVersion(cfg, s, key, l.now, stale.value.badge);
      assert ClientSource(cfg, s, host, name, w, stale.value.badge);
    }
    match Choose(l, name.version)
    case Err(e) =>
    case Ok(None) =>
    case Ok(Some(record)) =>
      match FetchOne(cfg, record.url, l.fetch.result)
      case Err(e) =>
      case Ok(badge) =>
        FetchedMeans(cfg, record.url, l.fetch.result, badge);
        assert LookedUp(cfg, l, name.version, badge, l.now);
        RefreshVerdict(cfg, Remember(cfg, s1, key, badge, l), host, name, cert, w.refresh);
  }
}
