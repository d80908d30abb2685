/** The exact verdict of a client verification in every world, in terms of records, log answers and the cache entry. */
module ClientVerdicts {
  import opened Wrappers
  import opened Text
  import opened Names
  import opened Badges
  import opened BadgeCache
  import opened Outcomes
  import opened Records
  import opened BadgeRules
  import opened ClientVerifier
  import opened ClientProperties
  import Dane

  // ----- which record is asked for -----

  /** No published record names the version or leaves it open. */
  ghost predicate Unpublished(l: Lookup, version: Version) {
    l.forVersion.Found? && forall r :: r in l.forVersion.records ==> !Suits(r, version)
  }

  /** The first record that suits the version; only if there is none, the preferred record of the second query. */
  ghost predicate AsksFor(l: Lookup, version: Version, record: Record) {
    || (l.forVersion.Found? && exists i: nat :: FirstSuiting(l.forVersion.records, version, i) && l.forVersion.records[i] == record)
    || (Unpublished(l, version) && l.preferred.Found?
        && exists i: nat :: PreferredAt(l.preferred.records, i) && l.preferred.records[i] == record)
  }

  /** The answer of the query that decided the choice when it brought no record. */
  ghost predicate ChoiceFails(l: Lookup, version: Version, e: Dane.DnsError) {
    var answer := if Unpublished(l, version) then l.preferred else l.forVersion;
    (answer.Absent? && e == Dane.NotFound) || (answer.Failed? && e == answer.error)
  }

  lemma UnpublishedMeans(l: Lookup, version: Version)
    ensures VersionGone(l, version) <==> Unpublished(l, version)
  {
    if l.forVersion.Found? {
      var records := l.forVersion.records;
      FirstForVersionMeans(records, version);
    }
  }

  lemma ChoiceMeans(l: Lookup, version: Version, record: Record)
    ensures Choose(l, version) == Ok(Some(record)) <==> AsksFor(l, version, record)
  {
    UnpublishedMeans(l, version);
    if l.forVersion.Found? {
      VersionRecord(l.forVersion.records, version, record);
      if i: nat :| FirstSuiting(l.forVersion.records, version, i) {
        assert l.forVersion.records[i] in l.forVersion.records;
      }
    }
    if l.preferred.Found? {
      PreferredRecord(l.preferred.records, record);
    }
  }

  lemma ChoiceFailsMeans(l: Lookup, version: Version, e: Dane.DnsError)
    ensures Choose(l, version) == Err(e) <==> ChoiceFails(l, version, e)
  {
    UnpublishedMeans(l, version);
  }

  // ----- what a lookup brings -----

  /** The record asked for has a trusted HTTPS URL, and the log answered with this badge, its status known. */
  ghost predicate Brings(cfg: Config, l: Lookup, version: Version, badge: Badge) {
    && l.fetch.result == Ok(badge) && badge.status != Unknown
    && exists record :: AsksFor(l, version, record) && TrustedUrl(cfg, record.url)
  }

  lemma BringsMeans(cfg: Config, l: Lookup, version: Version, badge: Badge)
    ensures LookedUp(cfg, l, version, badge, l.now) <==> Brings(cfg, l, version, badge)
  {
    hide Choose, AsksFor;
    if LookedUp(cfg, l, version, badge, l.now) {
      ChoiceMeans(l, version, Choose(l, version).value.value);
    }
    if record :| AsksFor(l, version, record) && TrustedUrl(cfg, record.url) {
      ChoiceMeans(l, version, record);
    }
  }

  /** DNS failed to look up or timed out, or the log could not say anything about the record. */
  ghost predicate Down(cfg: Config, l: Lookup, version: Version) {
    || ChoiceFails(l, version, Dane.LookupFailed) || ChoiceFails(l, version, Dane.Timeout)
    || exists record :: AsksFor(l, version, record) && TrustedUrl(cfg, record.url)
         && match l.fetch.result
            case Err(e) => e in {HttpError, ServiceUnavailable, StatusUnknown}
            case Ok(badge) => badge.status == Unknown
  }

  /** Nothing is published, DNS settled it, the URL is not trusted, or the log has no such badge. */
  ghost predicate SettledAgainst(cfg: Config, l: Lookup, version: Version) {
    || (Unpublished(l, version) && l.preferred == Found([]))
    || (exists e :: ChoiceFails(l, version, e) && e in {Dane.NotFound, Dane.DnssecFailed, Dane.InvalidFormat, Dane.ResolverError})
    || exists record :: AsksFor(l, version, record)
         && (TrustedUrl(cfg, record.url) ==>
               l.fetch.result.Err?
               && l.fetch.result.error in {NotFound, InvalidResponse, InvalidUrl, InvalidHeader, UntrustedDomain})
  }

  lemma NothingChosen(l: Lookup, version: Version)
    ensures Choose(l, version) == Ok(None) <==> Unpublished(l, version) && l.preferred == Found([])
  {
    UnpublishedMeans(l, version);
  }

  lemma LookupKinds(cfg: Config, l: Lookup, version: Version)
    ensures ClientOutage(cfg, l, version) <==> Down(cfg, l, version)
    ensures ClientAdverse(cfg, l, version) <==> SettledAgainst(cfg, l, version)
  {
    hide Choose, AsksFor, ChoiceFails, Unpublished, TrustedUrl;
    NothingChosen(l, version);
    forall e ensures Choose(l, version) == Err(e) <==> ChoiceFails(l, version, e) {
      ChoiceFailsMeans(l, version, e);
    }
    forall record ensures Choose(l, version) == Ok(Some(record)) <==> AsksFor(l, version, record) {
      ChoiceMeans(l, version, record);
    }
    match Choose(l, version)
    case Err(e) => Dane.DnsErrorsSplit(e);
    case Ok(None) =>
    case Ok(Some(record)) =>
      FetchFails(cfg, record.url, l.fetch.result);
      if l.fetch.result.Ok? {
        FetchedMeans(cfg, record.url, l.fetch.result, l.fetch.result.value);
      } else {
        LogErrorsSplit(l.fetch.result.error);
      }
  }

  // ----- success -----

  /** The lookup brings evidence for the certificate. */
  ghost predicate LookupVouches(cfg: Config, l: Lookup, cert: CertIdentity, name: AnsName, badge: Badge) {
    Brings(cfg, l, name.version, badge) && ClientEvidence(badge, cert, name)
  }

  ghost predicate BringsMismatch(cfg: Config, l: Lookup, cert: CertIdentity, version: Version) {
    exists badge :: Brings(cfg, l, version, badge) && ClientMismatch(badge, cert)
  }

  ghost predicate FreshIs(cfg: Config, s: CacheState, key: CacheKey, w: ClientWorld, badge: Badge) {
    FreshVersion(cfg, s, key, w.scanAt, badge)
  }

  ghost predicate NoFresh(cfg: Config, s: CacheState, key: CacheKey, w: ClientWorld) {
    forall badge :: !FreshIs(cfg, s, key, w, badge)
  }

  /**
   * The five ways to succeed: fresh evidence; a fresh mismatch, then evidence from the refresh; with
   * nothing fresh, evidence from the lookup; a mismatch from the lookup, then evidence from the refresh;
   * an outage, with admitted evidence for a version that is not known to be unpublished.
   */
  ghost predicate Vouched(cfg: Config, s: CacheState, host: string, name: AnsName, cert: CertIdentity, w: ClientWorld, badge: Badge) {
    var key := FqdnVersion(host, name.version);
    || (FreshIs(cfg, s, key, w, badge) && ClientEvidence(badge, cert, name))
    || ((exists cached :: FreshIs(cfg, s, key, w, cached) && ClientMismatch(cached, cert))
        && LookupVouches(cfg, w.refresh, cert, name, badge))
    || (NoFresh(cfg, s, key, w)
        && (|| LookupVouches(cfg, w.first, cert, name, badge)
            || (BringsMismatch(cfg, w.first, cert, name.version) && LookupVouches(cfg, w.refresh, cert, name, badge))
            || (Down(cfg, w.first, name.version) && !Unpublished(w.first, name.version)
                && StaleVersion(cfg, s, key, w.first.now, badge) && ClientEvidence(badge, cert, name))))
  }

  lemma RefreshVouches(cfg: Config, s: CacheState, host: string, name: AnsName, cert: CertIdentity, l: Lookup, badge: Badge)
    requires name.Valid()
    ensures var outcome := Refresh(cfg, s, host, name, cert, l).1;
            outcome.IsSuccess() && outcome == Verified(badge, cert.fingerprint) <==> LookupVouches(cfg, l, cert, name, badge)
    ensures var outcome := Refresh(cfg, s, host, name, cert, l).1;
            outcome.IsSuccess() ==> outcome.Verified? && outcome.fingerprint == cert.fingerprint
  {
    hide VerifyClientBadge, ClientEvidence, Choose, Brings, TrustedUrl, Remember;
    BringsMeans(cfg, l, name.version, badge);
    match Choose(l, name.version)
    case Err(_) =>
    case Ok(None) =>
    case Ok(Some(record)) =>
      if l.fetch.result.Ok? {
        FetchedMeans(cfg, record.url, l.fetch.result, l.fetch.result.value);
        ClientVerdictKinds(l.fetch.result.value, cert, name);
      }
      FetchFails(cfg, record.url, l.fetch.result);
  }

  lemma StaleVerdict(cfg: Config, s: CacheState, key: CacheKey, cert: CertIdentity, name: AnsName, now: nat, badge: Badge)
    requires name.Valid()
    ensures var stale := UsableStale(cfg, s, key, now);
            if stale.None? then !StaleVersion(cfg, s, key, now, badge)
            else
              var verdict := VerifyClientBadge(stale.value.badge, cert, name);
              && (verdict == Verified(badge, cert.fingerprint)
                  <==> StaleVersion(cfg, s, key, now, badge) && ClientEvidence(badge, cert, name))
              && (verdict.IsSuccess() ==> verdict.Verified? && verdict.fingerprint == cert.fingerprint)
  {
    hide VerifyClientBadge, ClientEvidence;
    if key in s.store {
      ClientVerdictKinds(s.store[key].badge, cert, name);
    }
  }

  lemma LookupSucceedsIff(cfg: Config, s: CacheState, host: string, name: AnsName, cert: CertIdentity, w: ClientWorld, badge: Badge)
    requires name.Valid()
    ensures LookUpAndVerify(cfg, s, host, name, cert, w).1 == Verified(badge, cert.fingerprint)
            <==> || LookupVouches(cfg, w.first, cert, name, badge)
                 || (BringsMismatch(cfg, w.first, cert, name.version) && LookupVouches(cfg, w.refresh, cert, name, badge))
                 || (Down(cfg, w.first, name.version) && !Unpublished(w.first, name.version)
                     && StaleVersion(cfg, s, FqdnVersion(host, name.version), w.first.now, badge) && ClientEvidence(badge, cert, name))
    ensures var outcome := LookUpAndVerify(cfg, s, host, name, cert, w).1;
            outcome.IsSuccess() ==> outcome.Verified? && outcome.fingerprint == cert.fingerprint
  {
    hide VerifyClientBadge, ClientEvidence, ClientMismatch, Choose, Brings, Down, Unpublished, TrustedUrl, Refresh;
    var l, key, version := w.first, FqdnVersion(host, name.version), name.version;
    var s1 := if VersionGone(l, version) then Invalidate(s, key) else s;
    UnpublishedMeans(l, version);
    LookupKinds(cfg, l, version);
    forall b ensures LookedUp(cfg, l, version, b, l.now) <==> Brings(cfg, l, version, b) {
      BringsMeans(cfg, l, version, b);
    }
    match Choose(l, version)
    case Err(e) => StaleVerdict(cfg, s1, key, cert, name, l.now, badge);
    case Ok(None) =>
    case Ok(Some(record)) =>
      FetchFails(cfg, record.url, l.fetch.result);
      if FetchOne(cfg, record.url, l.fetch.result).Ok? {
        var fetched := l.fetch.result.value;
        FetchedMeans(cfg, record.url, l.fetch.result, fetched);
        ClientVerdictKinds(fetched, cert, name);
        ClientMismatchMeans(fetched, cert, name);
        RefreshVouches(cfg, Remember(cfg, s1, key, fetched, l), host, name, cert, w.refresh, badge);
      } else {
        var error := FetchOne(cfg, record.url, l.fetch.result).error;
        LogErrorsSplit(error);
        forall b ensures !LookedUp(cfg, l, version, b, l.now) {
          FetchedMeans(cfg, record.url, l.fetch.result, b);
        }
        StaleVerdict(cfg, s1, key, cert, name, l.now, badge);
      }
  }

  /**
   * Client verification succeeds with a badge in a world exactly when that badge is vouched for in one of
   * the five ways.
   */
  lemma ClientSucceedsIff(
    cfg: Config, s: CacheState, host: string, name: AnsName, cert: CertIdentity, w: ClientWorld, badge: Badge)
    requires name.Valid()
    ensures VerifyNamed(cfg, s, host, name, cert, w).1 == Verified(badge, cert.fingerprint)
            <==> Vouched(cfg, s, host, name, cert, w, badge)
    ensures var outcome := VerifyNamed(cfg, s, host, name, cert, w).1;
            outcome.IsSuccess() ==> outcome.Verified? && outcome.fingerprint == cert.fingerprint
  {
    hide VerifyClientBadge, ClientEvidence, ClientMismatch, LookupVouches, BringsMismatch, Down, Unpublished, LookUpAndVerify, Refresh;
    var key := FqdnVersion(host, name.version);
    var cached := Get(s, cfg.lifetimes.hardTtl, w.scanAt, key);
    match cached
    case Some(entry) =>
      assert FreshIs(cfg, s, key, w, entry.badge);
      ClientVerdictKinds(entry.badge, cert, name);
      ClientMismatchMeans(entry.badge, cert, name);
      RefreshVouches(cfg, s, host, name, cert, w.refresh, badge);
    case None => LookupSucceedsIff(cfg, s, host, name, cert, w, badge);
  }

  // ----- answers and outages by name -----

  /** A settled answer to the lookup rejects the host: no entry of it is left, and the client fails, cached evidence notwithstanding. */
  lemma SettledAnswerRejects(
    cfg: Config, s: CacheState, host: string, name: AnsName, cert: CertIdentity, w: ClientWorld, key: CacheKey)
    requires Indexed(s) && Lower(host) == host && NoFresh(cfg, s, FqdnVersion(host, name.version), w)
    requires SettledAgainst(cfg, w.first, name.version)
    ensures var (s', outcome) := VerifyNamed(cfg, s, host, name, cert, w);
            !outcome.IsSuccess() && !(OfHost(key, host) && key in s'.store)
  {
    hide VerifyClientBadge, UsableStale, Choose, SettledAgainst, Refresh, InvalidateFqdn, FetchOne;
    var l, own := w.first, FqdnVersion(host, name.version);
    NoFreshMeans(cfg, s, own, w);
    LookupKinds(cfg, l, name.version);
    SplitErrors(cfg, l, name.version);
    var s1 := if VersionGone(l, name.version) then Invalidate(s, own) else s;
    OpKeepsIndexed(s, InvalidateOp(own));
    InvalidationIsExact(s1, host, key);
  }

  /** An outage leaves every entry as it was, except that a version known to be unpublished is dropped. */
  lemma OutageKeepsEntries(
    cfg: Config, s: CacheState, host: string, name: AnsName, cert: CertIdentity, w: ClientWorld, key: CacheKey)
    requires NoFresh(cfg, s, FqdnVersion(host, name.version), w) && Down(cfg, w.first, name.version)
    ensures var s' := VerifyNamed(cfg, s, host, name, cert, w).0;
            && (key in s'.store <==> key in s.store && !(Unpublished(w.first, name.version) && key == FqdnVersion(host, name.version)))
            && (key in s'.store ==> s'.store[key] == s.store[key])
  {
    hide VerifyClientBadge, UsableStale, Choose, Down, Unpublished, Refresh, InvalidateFqdn, FetchOne, VersionGone;
    NoFreshMeans(cfg, s, FqdnVersion(host, name.version), w);
    LookupKinds(cfg, w.first, name.version);
    UnpublishedMeans(w.first, name.version);
    SplitErrors(cfg, w.first, name.version);
  }

  lemma SplitErrors(cfg: Config, l: Lookup, version: Version)
    ensures match Choose(l, version)
            case Err(e) => e.IsUnavailable() <==> !Dane.DnsAnswered(e)
            case Ok(None) => true
            case Ok(Some(record)) =>
              var fetched := FetchOne(cfg, record.url, l.fetch.result);
              fetched.Err? ==> (fetched.error.IsUnavailable() <==> !LogAnswered(fetched.error))
  {
    hide Choose, FetchOne;
    match Choose(l, version)
    case Err(e) => Dane.DnsErrorsSplit(e);
    case Ok(None) =>
    case Ok(Some(record)) =>
      if FetchOne(cfg, record.url, l.fetch.result).Err? {
        LogErrorsSplit(FetchOne(cfg, record.url, l.fetch.result).error);
      }
  }

  lemma NoFreshMeans(cfg: Config, s: CacheState, key: CacheKey, w: ClientWorld)
    requires NoFresh(cfg, s, key, w)
    ensures Get(s, cfg.lifetimes.hardTtl, w.scanAt, key).None?
  {
    if key in s.store {
      assert !FreshIs(cfg, s, key, w, s.store[key].badge);
    }
  }

  // ----- what a failure reports -----

  /** The badge's own status, mismatch, host or name condemns the client. */
  ghost predicate Condemns(badge: Badge, cert: CertIdentity, outcome: Outcome) {
    if !Connectable(badge.status) then outcome == InvalidStatus(badge)
    else if ClientMismatch(badge, cert) then outcome.FingerprintMismatch? && outcome.badge == badge
    else if Lower(badge.host) != Lower(CertHost(cert)) then outcome.HostnameMismatch? && outcome.badge == badge
    else outcome.AnsNameMismatch? && outcome.badge == badge
  }

  ghost predicate FetchReports(cfg: Config, l: Lookup, version: Version, e: TlogError) {
    exists record :: AsksFor(l, version, record) && FetchOne(cfg, record.url, l.fetch.result) == Err(e)
  }

  /** What a failed lookup reports: the DNS error, that nothing is published, the fetch error, or the badge. */
  ghost predicate LookupReports(cfg: Config, l: Lookup, cert: CertIdentity, version: Version, outcome: Outcome) {
    || (outcome.DnsFailure? && ChoiceFails(l, version, outcome.dns))
    || (outcome.NotAnsAgent? && Unpublished(l, version) && l.preferred == Found([]))
    || (outcome.TlogFailure? && FetchReports(cfg, l, version, outcome.tlog))
    || (exists badge :: Brings(cfg, l, version, badge) && Condemns(badge, cert, outcome))
  }

  lemma RefreshReports(cfg: Config, s: CacheState, host: string, name: AnsName, cert: CertIdentity, l: Lookup)
    requires name.Valid() && !Refresh(cfg, s, host, name, cert, l).1.IsSuccess()
    ensures LookupReports(cfg, l, cert, name.version, Refresh(cfg, s, host, name, cert, l).1)
  {
    hide VerifyClientBadge, Choose, TrustedUrl, Brings, AsksFor, ChoiceFails, ClientMismatch, ClientEvidence, FetchOne;
    NothingChosen(l, name.version);
    match Choose(l, name.version)
    case Err(e) => ChoiceFailsMeans(l, name.version, e);
    case Ok(None) =>
    case Ok(Some(record)) =>
      ChoiceMeans(l, name.version, record);
      if FetchOne(cfg, record.url, l.fetch.result).Ok? {
        var badge := FetchOne(cfg, record.url, l.fetch.result).value;
        FetchedMeans(cfg, record.url, l.fetch.result, badge);
        BringsMeans(cfg, l, name.version, badge);
        ClientVerdictKinds(badge, cert, name);
      }
  }

  /** A badge the cache still held condemned the client instead of the lookup. */
  ghost predicate CacheCondemns(cfg: Config, s: CacheState, key: CacheKey, w: ClientWorld, cert: CertIdentity, outcome: Outcome) {
    key in s.store && Condemns(s.store[key].badge, cert, outcome)
    && (FreshVersion(cfg, s, key, w.scanAt, s.store[key].badge) || StaleVersion(cfg, s, key, w.first.now, s.store[key].badge))
  }

  /** A client that fails reports what decided it. */
  lemma ClientFailureMeans(cfg: Config, s: CacheState, host: string, name: AnsName, cert: CertIdentity, w: ClientWorld)
    requires name.Valid() && !VerifyNamed(cfg, s, host, name, cert, w).1.IsSuccess()
    ensures var outcome := VerifyNamed(cfg, s, host, name, cert, w).1;
            || LookupReports(cfg, w.first, cert, name.version, outcome)
            || LookupReports(cfg, w.refresh, cert, name.version, outcome)
            || CacheCondemns(cfg, s, FqdnVersion(host, name.version), w, cert, outcome)
  {
    hide VerifyClientBadge, LookupReports, Condemns, Refresh, LookUpAndVerify, ClientMismatch, ClientEvidence;
    var key := FqdnVersion(host, name.version);
    match Get(s, cfg.lifetimes.hardTtl, w.scanAt, key)
    case Some(entry) =>
      CondemnedKinds(entry.badge, cert, name);
      ClientMismatchMeans(entry.badge, cert, name);
      if VerifyClientBadge(entry.badge, cert, name).FingerprintMismatch? {
        RefreshReports(cfg, s, host, name, cert, w.refresh);
      }
    case None => LookupFailureMeans(cfg, s, host, name, cert, w);
  }

  lemma CondemnedKinds(badge: Badge, cert: CertIdentity, name: AnsName)
    requires name.Valid()
    ensures var verdict := VerifyClientBadge(badge, cert, name);
            !verdict.IsSuccess() ==> Condemns(badge, cert, verdict)
  {
    ClientVerdictKinds(badge, cert, name);
  }

  lemma LookupFailureMeans(cfg: Config, s: CacheState, host: string, name: AnsName, cert: CertIdentity, w: ClientWorld)
    requires name.Valid() && !LookUpAndVerify(cfg, s, host, name, cert, w).1.IsSuccess()
    ensures var outcome := LookUpAndVerify(cfg, s, host, name, cert, w).1;
            || LookupReports(cfg, w.first, cert, name.version, outcome)
            || LookupReports(cfg, w.refresh, cert, name.version, outcome)
            || CacheCondemns(cfg, s, FqdnVersion(host, name.version), w, cert, outcome)
  {
    hide VerifyClientBadge, Choose, Condemns, Refresh, ClientMismatch, ClientEvidence, Brings, AsksFor, ChoiceFails, TrustedUrl;
    hide FetchOne, FindBadgeForVersion;
    var l, key := w.first, FqdnVersion(host, name.version);
    var s1 := if VersionGone(l, name.version) then Invalidate(s, key) else s;
    if key in s1.store {
      CondemnedKinds(s1.store[key].badge, cert, name);
    }
    NothingChosen(l, name.version);
    match Choose(l, name.version)
    case Err(e) => ChoiceFailsMeans(l, name.version, e);
    case Ok(None) =>
    case Ok(Some(record)) =>
      ChoiceMeans(l, name.version, record);
      if FetchOne(cfg, record.url, l.fetch.result).Ok? {
        var badge := FetchOne(cfg, record.url, l.fetch.result).value;
        FetchedMeans(cfg, record.url, l.fetch.result, badge);
        BringsMeans(cfg, l, name.version, badge);
        CondemnedKinds(badge, cert, name);
        if VerifyClientBadge(badge, cert, name).FingerprintMismatch? {
          RefreshReports(cfg, Remember(cfg, s1, key, badge, l), host, name, cert, w.refresh);
        }
      }
  }
}
