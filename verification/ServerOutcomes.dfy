/** What a successful server verification proves, and which evidence an outage may fall back on. */
module ServerOutcomes {
  import opened Wrappers
  import opened Text
  import opened Names
  import opened Badges
  import opened BadgeCache
  import opened Outcomes
  import opened Records
  import opened BadgeRules
  import opened ServerVerifier
  import opened ServerProperties
  import Dane

  // ----- cached evidence -----

  /** The store holds `badge` for this host, stored less than its lifetime ago. */
  ghost predicate FreshEntry(cfg: Config, s: CacheState, host: string, now: nat, version: Version, badge: Badge) {
    var key := FqdnVersion(host, version);
    && key in s.store && s.store[key].badge == badge
    && Within(s.store[key].fetchedAt, now, s.store[key].ttl)
    && Within(s.store[key].fetchedAt, now, cfg.lifetimes.hardTtl)
  }

  /** The policy admits stale evidence and the store holds `badge` for this host within that bound. */
  ghost predicate StaleEntry(cfg: Config, s: CacheState, host: string, now: nat, version: Version, badge: Badge) {
    var key := FqdnVersion(host, version);
    && cfg.policy.FailOpenWithCache?
    && key in s.store && s.store[key].badge == badge
    && Within(s.store[key].fetchedAt, now, cfg.policy.maxStaleness)
    && Within(s.store[key].fetchedAt, now, cfg.lifetimes.hardTtl)
  }

  ghost predicate AnyEvidence(cached: seq<CachedBadge>, cert: CertIdentity, host: string) {
    exists c :: c in cached && ServerEvidence(c.badge, cert, host)
  }

  lemma {:induction false} FirstSuccessMeans(cached: seq<CachedBadge>, cert: CertIdentity, host: string)
    ensures FirstSuccess(cached, cert, host).Some? <==> AnyEvidence(cached, cert, host)
    ensures FirstSuccess(cached, cert, host).Some? ==>
              exists c :: c in cached && ServerEvidence(c.badge, cert, host)
                          && FirstSuccess(cached, cert, host).value == Verified(c.badge, cert.fingerprint)
  {
    if cached != [] {
      FirstSuccessMeans(cached[1..], cert, host);
      ServerDecision(cached[0].badge, cert, host);
      assert cached == [cached[0]] + cached[1..];
    }
  }

  /** A scan reports the first entry that is evidence. */
  lemma {:induction false} FirstEvidenceWins(cached: seq<CachedBadge>, cert: CertIdentity, host: string, k: nat)
    requires k < |cached| && ServerEvidence(cached[k].badge, cert, host)
    requires forall i :: 0 <= i < k ==> !ServerEvidence(cached[i].badge, cert, host)
    ensures FirstSuccess(cached, cert, host) == Some(Verified(cached[k].badge, cert.fingerprint))
  {
    hide ServerEvidence, VerifyServerBadge;
    ServerVerdictKinds(cached[0].badge, cert, host);
    if k > 0 {
      FirstEvidenceWins(cached[1..], cert, host, k - 1);
    }
  }

  lemma ServerDecision(badge: Badge, cert: CertIdentity, host: string)
    ensures VerifyServerBadge(badge, cert, host).IsSuccess() <==> ServerEvidence(badge, cert, host)
    ensures ServerEvidence(badge, cert, host) ==>
              VerifyServerBadge(badge, cert, host) == Verified(badge, cert.fingerprint)
  {}

  lemma {:induction false} YoungerThanMeans(cached: seq<CachedBadge>, now: nat, age: nat, c: CachedBadge)
    ensures c in YoungerThan(cached, now, age) <==> c in cached && Within(c.fetchedAt, now, age)
  {
    if cached != [] {
      YoungerThanMeans(cached[1..], now, age, c);
      assert cached == [cached[0]] + cached[1..];
    }
  }

  lemma CollectedMeans(s: CacheState, hardTtl: nat, now: nat, host: string, allowStale: bool, c: CachedBadge)
    requires Indexed(s) && Lower(host) == host
    ensures c in CollectForFqdn(s, hardTtl, now, host, allowStale)
            <==> exists v :: Lookup(s, hardTtl, now, FqdnVersion(host, v), allowStale) == Some(c)
  {
    if host in s.index {
      CollectedVersions(s, hardTtl, now, host, s.index[host], allowStale, c);
    }
  }

  /** The scan succeeds exactly when some fresh entry of the host is evidence for the certificate. */
  lemma ScanMeans(cfg: Config, s: CacheState, host: string, cert: CertIdentity, now: nat)
    requires Indexed(s) && Lower(host) == host
    ensures ScanCache(cfg, s, host, cert, now).Some?
            <==> exists v, b :: FreshEntry(cfg, s, host, now, v, b) && ServerEvidence(b, cert, host)
    ensures ScanCache(cfg, s, host, cert, now).Some? ==>
              exists v, b :: FreshEntry(cfg, s, host, now, v, b) && ServerEvidence(b, cert, host)
                             && ScanCache(cfg, s, host, cert, now).value == Verified(b, cert.fingerprint)
  {
    var hardTtl := cfg.lifetimes.hardTtl;
    var cached := CollectForFqdn(s, hardTtl, now, host, false);
    FirstSuccessMeans(cached, cert, host);
    if ScanCache(cfg, s, host, cert, now).Some? {
      var c :| c in cached && ServerEvidence(c.badge, cert, host)
               && FirstSuccess(cached, cert, host).value == Verified(c.badge, cert.fingerprint);
      CollectedMeans(s, hardTtl, now, host, false, c);
      var v :| Lookup(s, hardTtl, now, FqdnVersion(host, v), false) == Some(c);
      assert FreshEntry(cfg, s, host, now, v, c.badge);
    }
    if v, b :| FreshEntry(cfg, s, host, now, v, b) && ServerEvidence(b, cert, host) {
      var c := s.store[FqdnVersion(host, v)];
      assert Lookup(s, hardTtl, now, FqdnVersion(host, v), false) == Some(c);
      CollectedMeans(s, hardTtl, now, host, false, c);
    }
  }

  /** The stale fallback succeeds exactly when the policy admits an entry that is evidence. */
  lemma StaleMeans(cfg: Config, s: CacheState, host: string, cert: CertIdentity, now: nat)
    requires Indexed(s) && Lower(host) == host
    ensures StaleSuccess(cfg, s, host, cert, now).Some?
            <==> exists v, b :: StaleEntry(cfg, s, host, now, v, b) && ServerEvidence(b, cert, host)
    ensures StaleSuccess(cfg, s, host, cert, now).Some? ==>
              exists v, b :: StaleEntry(cfg, s, host, now, v, b) && ServerEvidence(b, cert, host)
                             && StaleSuccess(cfg, s, host, cert, now).value == Verified(b, cert.fingerprint)
  {
    if cfg.policy.FailOpenWithCache? {
      var hardTtl, age := cfg.lifetimes.hardTtl, cfg.policy.maxStaleness;
      var cached := CollectForFqdn(s, hardTtl, now, host, true);
      var young := YoungerThan(cached, now, age);
      FirstSuccessMeans(young, cert, host);
      if StaleSuccess(cfg, s, host, cert, now).Some? {
        var c :| c in young && ServerEvidence(c.badge, cert, host)
                 && FirstSuccess(young, cert, host).value == Verified(c.badge, cert.fingerprint);
        YoungerThanMeans(cached, now, age, c);
        CollectedMeans(s, hardTtl, now, host, true, c);
        var v :| Lookup(s, hardTtl, now, FqdnVersion(host, v), true) == Some(c);
        assert StaleEntry(cfg, s, host, now, v, c.badge);
      }
      if v, b :| StaleEntry(cfg, s, host, now, v, b) && ServerEvidence(b, cert, host) {
        var c := s.store[FqdnVersion(host, v)];
        assert Lookup(s, hardTtl, now, FqdnVersion(host, v), true) == Some(c);
        CollectedMeans(s, hardTtl, now, host, true, c);
        YoungerThanMeans(cached, now, age, c);
      }
    }
  }

  // ----- outages -----

  /** The round brought no answer and no adverse evidence: DNS was down, or the log was for every record. */
  ghost predicate Outage(cfg: Config, r: Round) {
    match r.dns
    case Absent => false
    case Failed(e) => !Dane.DnsAnswered(e)
    case Found(_) =>
      var items := RoundItems(cfg, r);
      items != [] && forall i :: 0 <= i < |items| ==> items[i].result.Err? && !LogAnswered(items[i].result.error)
  }

  lemma {:induction false} FailuresMeans(items: seq<Item>, e: TlogError)
    ensures e in Failures(items) <==> exists i :: 0 <= i < |items| && items[i].result == Err(e)
  {
    if items != [] {
      var n := |items| - 1;
      FailuresMeans(items[..n], e);
      if i :| 0 <= i < |items| && items[i].result == Err(e) && i < n {
        assert items[..n][i].result == Err(e);
      }
      if i :| 0 <= i < n && items[..n][i].result == Err(e) {
        assert items[i].result == Err(e);
      }
    }
  }

  /**
   * When a pass ends with an error and no mismatch, the error admits stale evidence exactly when the
   * round was an outage: one determinate failure among the records is enough to shut the fallback.
   */
  lemma FallbackNeedsOutage(cfg: Config, s: CacheState, host: string, cert: CertIdentity, r: Round)
    requires r.dns.Found?
    ensures var end := PassOver(cfg, s, host, cert, r).1;
            end.Exhausted? && end.mismatch.None? && end.error.Some? ==>
              !AnyFetched(RoundItems(cfg, r)) && (end.error.value.MayUseStale() <==> Outage(cfg, r))
  {
    hide RunPass, VerifyServerBadge, ServerMismatch, LogAnswered, RoundItems, FetchAll, Failures;
    var items := RoundItems(cfg, r);
    var indexed := IndexRecords(cfg, s, host, SortNewestFirst(r.dns.records));
    var d := FirstDecisive(items, cert, host, 0);
    FirstDecisiveWins(cfg, indexed, host, cert, r.now, items, d);
    var errors := Failures(items);
    if errors != [] && !AnyFetched(items) {
      FoldedErrorUnavailableIff(errors);
      FailuresMeans(items, errors[0]);
      if Outage(cfg, r) {
        forall e | e in errors ensures !LogAnswered(e) {
          FailuresMeans(items, e);
        }
      }
      if forall e :: e in errors ==> !LogAnswered(e) {
        forall i | 0 <= i < |items| ensures items[i].result.Err? && !LogAnswered(items[i].result.error) {
          FailuresMeans(items, items[i].result.error);
        }
      }
    }
  }

  // ----- soundness of success -----

  /** Where the badge of a successful verification came from. */
  ghost predicate BadgeSource(cfg: Config, s: CacheState, host: string, w: World, badge: Badge) {
    || FetchedIn(cfg, w.first, badge, w.first.now)
    || FetchedIn(cfg, w.refresh, badge, w.refresh.now)
    || (exists v :: FreshEntry(cfg, s, host, w.scanAt, v, badge))
    || (Outage(cfg, w.first) && exists v :: StaleEntry(cfg, s, host, w.first.now, v, badge))
  }

  ghost predicate SoundSuccess(
    cfg: Config, s: CacheState, host: string, cert: CertIdentity, w: World, outcome: Outcome)
  {
    outcome.IsSuccess() ==>
      && outcome.Verified? && outcome.fingerprint == cert.fingerprint
      && ServerEvidence(outcome.badge, cert, host)
      && BadgeSource(cfg, s, host, w, outcome.badge)
  }

  lemma DecidedMeans(cfg: Config, s: CacheState, host: string, cert: CertIdentity, r: Round)
    requires r.dns.Found?
    ensures var end := PassOver(cfg, s, host, cert, r).1;
            end.Decided? && end.outcome.IsSuccess() ==>
              exists b :: FetchedIn(cfg, r, b, r.now) && ServerEvidence(b, cert, host)
                          && end.outcome == Verified(b, cert.fingerprint)
  {
    var items := RoundItems(cfg, r);
    var indexed := IndexRecords(cfg, s, host, SortNewestFirst(r.dns.records));
    var d := FirstDecisive(items, cert, host, 0);
    FirstDecisiveWins(cfg, indexed, host, cert, r.now, items, d);
    if d < |items| {
      var b := items[d].result.value;
      assert FetchedIn(cfg, r, b, r.now);
      ServerDecision(b, cert, host);
    }
  }

  /** A mismatch is the only outcome an exhausted pass carries, and it is no success. */
  lemma {:induction false} MismatchIsNoSuccess(
    cfg: Config, s: CacheState, host: string, cert: CertIdentity, now: nat, items: seq<Item>, i: nat,
    mismatch: Option<Outcome>, error: Option<AnsError>)
    requires i <= |items| && (mismatch.Some? ==> mismatch.value.FingerprintMismatch?)
    ensures var end := RunPass(cfg, s, host, cert, now, items, i, mismatch, error).1;
            end.Exhausted? && end.mismatch.Some? ==> end.mismatch.value.FingerprintMismatch?
    decreases |items| - i
  {
    if i < |items| {
      match items[i].result {
        case Err(e) =>
          var s1 := if e.IsUnavailable() then s else InvalidateFqdn(s, host);
          MismatchIsNoSuccess(cfg, s1, host, cert, now, items, i + 1, mismatch, RecordTlogError(error, e));
        case Ok(badge) =>
          var s1 := StoreFetched(cfg, s, host, items[i], badge, now);
          var outcome := VerifyServerBadge(badge, cert, host);
          if outcome.FingerprintMismatch? {
            MismatchIsNoSuccess(cfg, s1, host, cert, now, items, i + 1, Some(outcome), error);
          }
      }
    }
  }

  lemma PassMismatchIsNoSuccess(cfg: Config, s: CacheState, host: string, cert: CertIdentity, r: Round)
    requires r.dns.Found?
    ensures var end := PassOver(cfg, s, host, cert, r).1;
            end.Exhausted? && end.mismatch.Some? ==> !end.mismatch.value.IsSuccess()
  {
    var indexed := IndexRecords(cfg, s, host, SortNewestFirst(r.dns.records));
    MismatchIsNoSuccess(cfg, indexed, host, cert, r.now, RoundItems(cfg, r), 0, None, None);
  }

  /** With nothing fetched, the entries a pass leaves were there before. */
  lemma PassWithoutFetch(cfg: Config, s: CacheState, host: string, cert: CertIdentity, r: Round, key: CacheKey)
    requires r.dns.Found? && !AnyFetched(RoundItems(cfg, r)) && Indexed(s) && Lower(host) == host
    ensures var s' := PassOver(cfg, s, host, cert, r).0;
            Indexed(s') && (key in s'.store ==> Kept(s, s', key))
  {
    PassOverEntry(cfg, s, host, cert, r, key);
    var s' := PassOver(cfg, s, host, cert, r).0;
    if key in s'.store && RoundLeft(cfg, r, host, cert, key, s'.store[key]) {
      LeftWasFetched(cfg, r, host, cert, key, s'.store[key]);
    }
  }

  /** After the refresh has dropped the host, no stale evidence can rescue it. */
  lemma RefreshSucceedsOnlyFresh(cfg: Config, s: CacheState, host: string, cert: CertIdentity, r: Round)
    requires Indexed(s) && Lower(host) == host
    ensures var outcome := Refresh(cfg, s, host, cert, r).1;
            outcome.IsSuccess() ==>
              exists b :: FetchedIn(cfg, r, b, r.now) && ServerEvidence(b, cert, host)
                          && outcome == Verified(b, cert.fingerprint)
  {
    var purged := InvalidateFqdn(s, host);
    OpKeepsIndexed(s, InvalidateFqdnOp(host));
    InvalidatedHostIsGone(s, host);
    if r.dns.Found? {
      DecidedMeans(cfg, purged, host, cert, r);
      PassMismatchIsNoSuccess(cfg, purged, host, cert, r);
      FallbackNeedsOutage(cfg, purged, host, cert, r);
      var (s1, end) := PassOver(cfg, purged, host, cert, r);
      if end.Exhausted? && end.mismatch.None? && end.error.Some? {
        forall v ensures FqdnVersion(host, v) !in s1.store && Indexed(s1) {
          PassWithoutFetch(cfg, purged, host, cert, r, FqdnVersion(host, v));
        }
        PassWithoutFetch(cfg, purged, host, cert, r, CacheKey.Url(""));
        StaleMeans(cfg, s1, host, cert, r.now);
        ReportIsNoSuccess(end.error.value);
      }
    }
  }

  lemma ReportIsNoSuccess(error: AnsError)
    ensures !Report(error).IsSuccess()
  {}

  lemma RecordsSuccess(cfg: Config, s: CacheState, host: string, cert: CertIdentity, w: World)
    requires w.first.dns.Found? && Indexed(s) && Lower(host) == host
    ensures SoundSuccess(cfg, s, host, cert, w, VerifyRecords(cfg, s, host, cert, w.first, w.refresh).1)
  {
    DecidedMeans(cfg, s, host, cert, w.first);
    FallbackNeedsOutage(cfg, s, host, cert, w.first);
    PassOverEntry(cfg, s, host, cert, w.first, CacheKey.Url(""));
    var (s1, end) := PassOver(cfg, s, host, cert, w.first);
    if end.Exhausted? && end.mismatch.Some? {
      RefreshSucceedsOnlyFresh(cfg, s1, host, cert, w.refresh);
    } else if end.Exhausted? && end.error.Some? {
      ReportIsNoSuccess(end.error.value);
      StaleMeans(cfg, s1, host, cert, w.first.now);
      if StaleSuccess(cfg, s1, host, cert, w.first.now).Some? {
        var v, b :| StaleEntry(cfg, s1, host, w.first.now, v, b) && ServerEvidence(b, cert, host)
                    && StaleSuccess(cfg, s1, host, cert, w.first.now).value == Verified(b, cert.fingerprint);
        PassWithoutFetch(cfg, s, host, cert, w.first, FqdnVersion(host, v));
        assert StaleEntry(cfg, s, host, w.first.now, v, b);
      }
    }
  }

  /**
   * Success is sound with provenance: the badge has a connectable status, lists the certificate, names
   * the dialed host, and was fetched by this verification, or was in the cache within its lifetime, or,
   * under the fail-open policy and a genuine outage, within the staleness bound.
   */
  lemma ServerSuccess(cfg: Config, s: CacheState, host: string, cert: CertIdentity, w: World)
    requires Indexed(s) && Lower(host) == host
    ensures SoundSuccess(cfg, s, host, cert, w, VerifyBadge(cfg, s, host, cert, w).1)
  {
    ScanMeans(cfg, s, host, cert, w.scanAt);
    if ScanCache(cfg, s, host, cert, w.scanAt).None? {
      if w.first.dns.Found? {
        RecordsSuccess(cfg, s, host, cert, w);
      } else {
        StaleMeans(cfg, s, host, cert, w.first.now);
      }
    }
  }

  /** The version was not dropped by the record list of this round: records that name versions drop the others. */
  ghost predicate StillListed(cfg: Config, r: Round, version: Version) {
    cfg.caching && r.dns.Found? && (exists v :: NamedBy(r.dns.records, v)) ==> NamedBy(r.dns.records, version)
  }

  lemma StillListedMeans(cfg: Config, r: Round, version: Version)
    requires r.dns.Found?
    ensures var listed := ListedVersions(SortNewestFirst(r.dns.records));
            StillListed(cfg, r, version) <==> (cfg.caching && listed != [] ==> version in listed)
  {
    var listed := ListedVersions(SortNewestFirst(r.dns.records));
    forall v ensures v in listed <==> NamedBy(r.dns.records, v) {
      ListedMeans(r.dns.records, v);
    }
    if listed != [] {
      assert NamedBy(r.dns.records, listed[0]);
    }
  }

  /** While every fetch is an outage a pass changes nothing. */
  lemma {:induction false} OutagePassKeeps(
    cfg: Config, s: CacheState, host: string, cert: CertIdentity, now: nat, items: seq<Item>, i: nat,
    mismatch: Option<Outcome>, error: Option<AnsError>)
    requires i <= |items|
    requires forall k :: 0 <= k < |items| ==> items[k].result.Err? && !LogAnswered(items[k].result.error)
    ensures var (s', end) := RunPass(cfg, s, host, cert, now, items, i, mismatch, error);
            s' == s && end.Exhausted? && end.mismatch == mismatch && (i < |items| ==> end.error.Some?)
    decreases |items| - i
  {
    if i < |items| {
      var e := RecordTlogError(error, items[i].result.error);
      OutagePassKeeps(cfg, s, host, cert, now, items, i + 1, mismatch, e);
      if i + 1 == |items| {
        assert RunPass(cfg, s, host, cert, now, items, i + 1, mismatch, e).1 == Exhausted(mismatch, e);
      }
    }
  }

  /** A log outage leaves the verdict to the entries whose versions DNS still lists. */
  lemma LogOutageSucceedsIff(cfg: Config, s: CacheState, host: string, cert: CertIdentity, r: Round, refresh: Round)
    requires Indexed(s) && Lower(host) == host && r.dns.Found? && Outage(cfg, r)
    ensures VerifyRecords(cfg, s, host, cert, r, refresh).1.IsSuccess()
            <==> exists v, b :: ServerEvidence(b, cert, host) && StaleEntry(cfg, s, host, r.now, v, b) && StillListed(cfg, r, v)
  {
    var sorted, items := SortNewestFirst(r.dns.records), RoundItems(cfg, r);
    var indexed := IndexRecords(cfg, s, host, sorted);
    StepsKeepIndexed(cfg, s, host, items[0], Blank(), r.now, sorted);
    OutagePassKeeps(cfg, indexed, host, cert, r.now, items, 0, None, None);
    FallbackNeedsOutage(cfg, s, host, cert, r);
    ReportIsNoSuccess(PassOver(cfg, s, host, cert, r).1.error.value);
    StaleMeans(cfg, indexed, host, cert, r.now);
    forall v, b ensures StaleEntry(cfg, indexed, host, r.now, v, b)
                        <==> StaleEntry(cfg, s, host, r.now, v, b) && StillListed(cfg, r, v) {
      SetVersionsIsExact(s, host, ListedVersions(sorted), FqdnVersion(host, v));
      StillListedMeans(cfg, r, v);
    }
  }

  /**
   * An outage of DNS or of the log verifies exactly when the cache alone can: by a fresh entry, or by a
   * stale one the policy admits and DNS, if it answered, still lists.
   */
  lemma OutageSucceedsIff(cfg: Config, s: CacheState, host: string, cert: CertIdentity, w: World)
    requires Indexed(s) && Lower(host) == host && Outage(cfg, w.first)
    ensures VerifyBadge(cfg, s, host, cert, w).1.IsSuccess()
            <==> exists v, b :: ServerEvidence(b, cert, host)
                                && (FreshEntry(cfg, s, host, w.scanAt, v, b)
                                    || (StaleEntry(cfg, s, host, w.first.now, v, b) && StillListed(cfg, w.first, v)))
  {
    hide ServerEvidence, VerifyRecords, VerifyServerBadge, StaleSuccess;
    ScanMeans(cfg, s, host, cert, w.scanAt);
    if w.first.dns.Found? {
      LogOutageSucceedsIff(cfg, s, host, cert, w.first, w.refresh);
    } else {
      StaleMeans(cfg, s, host, cert, w.first.now);
    }
    if ScanCache(cfg, s, host, cert, w.scanAt).Some? {
      FirstSuccessMeans(CollectForFqdn(s, cfg.lifetimes.hardTtl, w.scanAt, host, false), cert, host);
    }
  }

  // ----- when an outage can undo a terminal answer -----

  /** The first record that is decisive carries a badge in a terminal or unknown state. */
  ghost predicate TerminalAt(items: seq<Item>, cert: CertIdentity, host: string, d: nat) {
    && d < |items| && items[d].result.Ok? && !Connectable(items[d].result.value.status)
    && forall k :: 0 <= k < d ==> !Decisive(items[k], cert, host)
  }

  /** A badge without a connectable status ends a pass. */
  lemma TerminalDecides(badge: Badge, cert: CertIdentity, host: string)
    requires !Connectable(badge.status)
    ensures VerifyServerBadge(badge, cert, host) == InvalidStatus(badge) && !ServerEvidence(badge, cert, host)
  {}

  /** The deciding badge is stored under this version. */
  ghost predicate StoredUnder(cfg: Config, item: Item, version: Version) {
    cfg.caching && item.result.Ok? && BelongsTo(item.record, item.result.value, version)
  }

  /**
   * A terminal answer rejects only the version it is stored under: a later outage still verifies exactly
   * when the cache holds evidence under another version. A badge without a record version or a parsable
   * version of its own is stored under none, so then evidence under any version will do.
   */
  lemma OutageUndoesTerminalIff(
    cfg: Config, s: CacheState, host: string, cert: CertIdentity, w: World, d: nat, nextCert: CertIdentity, next: World)
    requires Indexed(s) && Lower(host) == host && ScanCache(cfg, s, host, cert, w.scanAt).None? && w.first.dns.Found?
    requires TerminalAt(RoundItems(cfg, w.first), cert, host, d) && Outage(cfg, next.first)
    ensures var (s', outcome) := VerifyBadge(cfg, s, host, cert, w);
            var item := RoundItems(cfg, w.first)[d];
            && outcome == InvalidStatus(item.result.value)
            && (VerifyBadge(cfg, s', host, nextCert, next).1.IsSuccess()
                <==> exists v, b :: ServerEvidence(b, nextCert, host) && !StoredUnder(cfg, item, v)
                                    && (FreshEntry(cfg, s', host, next.scanAt, v, b)
                                        || (StaleEntry(cfg, s', host, next.first.now, v, b) && StillListed(cfg, next.first, v))))
  {
    var sorted, items := SortNewestFirst(w.first.dns.records), RoundItems(cfg, w.first);
    var badge := items[d].result.value;
    var indexed := IndexRecords(cfg, s, host, sorted);
    TerminalDecides(badge, cert, host);
    StepsKeepIndexed(cfg, s, host, items[d], badge, w.first.now, sorted);
    var before := DecidingBadgeIsStored(cfg, indexed, host, cert, w.first.now, items, 0, d, None, None);
    StepsKeepIndexed(cfg, before, host, items[d], badge, w.first.now, []);
    var s' := VerifyBadge(cfg, s, host, cert, w).0;
    assert s' == StoreFetched(cfg, before, host, items[d], badge, w.first.now);
    hide VerifyBadge, ServerEvidence, Outage, RoundItems, StillListed;
    OutageSucceedsIff(cfg, s', host, nextCert, next);
    forall v, b | StoredUnder(cfg, items[d], v) && (FreshEntry(cfg, s', host, next.scanAt, v, b)
                                                    || StaleEntry(cfg, s', host, next.first.now, v, b))
      ensures !ServerEvidence(b, nextCert, host)
    {
      StoredEntry(cfg, before, host, items[d], badge, w.first.now, FqdnVersion(host, v));
      TerminalDecides(badge, nextCert, host);
    }
  }

  /** What the verification left of the earlier entries, when only outages preceded the deciding record. */
  ghost predicate Survives(cfg: Config, s: CacheState, host: string, r: Round, item: Item, version: Version) {
    && FqdnVersion(host, version) in s.store && StillListed(cfg, r, version)
    && !(cfg.caching && item.result.Ok? && (exists v :: BelongsTo(item.record, item.result.value, v))
         && FqdnVersion(host, version) in item.evicted)
  }

  lemma {:induction false} OutagesBeforeDecision(
    cfg: Config, s: CacheState, host: string, cert: CertIdentity, now: nat, items: seq<Item>, i: nat, d: nat,
    error: Option<AnsError>)
    requires i <= d && TerminalAt(items, cert, host, d)
    requires forall k :: 0 <= k < d ==> items[k].result.Err? && !LogAnswered(items[k].result.error)
    ensures RunPass(cfg, s, host, cert, now, items, i, None, error).0
            == StoreFetched(cfg, s, host, items[d], items[d].result.value, now)
    decreases d - i
  {
    if i < d {
      OutagesBeforeDecision(cfg, s, host, cert, now, items, i + 1, d, RecordTlogError(error, items[i].result.error));
    } else {
      TerminalDecides(items[d].result.value, cert, host);
    }
  }

  /** Only outages precede the terminal badge that decides. */
  ghost predicate TerminalAfterOutages(items: seq<Item>, cert: CertIdentity, host: string, d: nat) {
    && TerminalAt(items, cert, host, d)
    && forall k :: 0 <= k < d ==> items[k].result.Err? && !LogAnswered(items[k].result.error)
  }

  lemma TerminalLeaves(
    cfg: Config, s: CacheState, host: string, cert: CertIdentity, w: World, d: nat, version: Version)
    requires Indexed(s) && Lower(host) == host && ScanCache(cfg, s, host, cert, w.scanAt).None? && w.first.dns.Found?
    requires TerminalAfterOutages(RoundItems(cfg, w.first), cert, host, d)
    requires !StoredUnder(cfg, RoundItems(cfg, w.first)[d], version)
    ensures var s' := VerifyBadge(cfg, s, host, cert, w).0;
            var key := FqdnVersion(host, version);
            && (key in s'.store <==> Survives(cfg, s, host, w.first, RoundItems(cfg, w.first)[d], version))
            && (key in s'.store ==> s'.store[key] == s.store[key])
  {
    hide ScanCache, RoundItems;
    var sorted, items := SortNewestFirst(w.first.dns.records), RoundItems(cfg, w.first);
    var indexed := IndexRecords(cfg, s, host, sorted);
    var badge := items[d].result.value;
    TerminalDecides(badge, cert, host);
    StepsKeepIndexed(cfg, s, host, items[d], badge, w.first.now, sorted);
    var before := DecidingBadgeIsStored(cfg, indexed, host, cert, w.first.now, items, 0, d, None, None);
    OutagesBeforeDecision(cfg, indexed, host, cert, w.first.now, items, 0, d, None);
    hide RunPass, TerminalAt;
    StoredVersionMeans(items[d].record, badge, version);
    assert VerifyBadge(cfg, s, host, cert, w).0 == StoreFetched(cfg, indexed, host, items[d], badge, w.first.now);
    SetVersionsIsExact(s, host, ListedVersions(sorted), FqdnVersion(host, version));
    StillListedMeans(cfg, w.first, version);
  }

  /**
   * The same condition on the cache before the call, when only outages preceded the terminal badge: the
   * earlier entries of other versions that DNS listed and the new badge did not push out.
   */
  lemma TerminalSparesOtherVersions(
    cfg: Config, s: CacheState, host: string, cert: CertIdentity, w: World, d: nat, nextCert: CertIdentity, next: World)
    requires Indexed(s) && Lower(host) == host && ScanCache(cfg, s, host, cert, w.scanAt).None? && w.first.dns.Found?
    requires TerminalAfterOutages(RoundItems(cfg, w.first), cert, host, d) && Outage(cfg, next.first)
    ensures var s' := VerifyBadge(cfg, s, host, cert, w).0;
            var item := RoundItems(cfg, w.first)[d];
            VerifyBadge(cfg, s', host, nextCert, next).1.IsSuccess()
            <==> exists v, b :: ServerEvidence(b, nextCert, host) && !StoredUnder(cfg, item, v)
                                && Survives(cfg, s, host, w.first, item, v)
                                && (FreshEntry(cfg, s, host, next.scanAt, v, b)
                                    || (StaleEntry(cfg, s, host, next.first.now, v, b) && StillListed(cfg, next.first, v)))
  {
    hide VerifyBadge, ServerEvidence, Outage, RoundItems, StillListed, Survives, StoredUnder, ScanCache;
    OutageUndoesTerminalIff(cfg, s, host, cert, w, d, nextCert, next);
    forall v | !StoredUnder(cfg, RoundItems(cfg, w.first)[d], v)
      ensures FqdnVersion(host, v) in VerifyBadge(cfg, s, host, cert, w).0.store
              <==> Survives(cfg, s, host, w.first, RoundItems(cfg, w.first)[d], v)
      ensures FqdnVersion(host, v) in VerifyBadge(cfg, s, host, cert, w).0.store ==>
                FqdnVersion(host, v) in s.store
                && VerifyBadge(cfg, s, host, cert, w).0.store[FqdnVersion(host, v)] == s.store[FqdnVersion(host, v)]
    {
      TerminalLeaves(cfg, s, host, cert, w, d, v);
      SurvivorsWereThere(cfg, s, host, w.first, RoundItems(cfg, w.first)[d], v);
    }
  }

  lemma SurvivorsWereThere(cfg: Config, s: CacheState, host: string, r: Round, item: Item, version: Version)
    ensures Survives(cfg, s, host, r, item, version) ==> FqdnVersion(host, version) in s.store
  {}

  // ----- the cache answers next time -----

  /** The pass stores the badge that decides it, last. */
  lemma {:induction false} DecidingBadgeIsStored(
    cfg: Config, s: CacheState, host: string, cert: CertIdentity, now: nat, items: seq<Item>, i: nat, d: nat,
    mismatch: Option<Outcome>, error: Option<AnsError>) returns (before: CacheState)
    requires i <= d < |items| && Decisive(items[d], cert, host) && Indexed(s)
    requires forall k :: 0 <= k < d ==> !Decisive(items[k], cert, host)
    ensures Indexed(before)
    ensures RunPass(cfg, s, host, cert, now, items, i, mismatch, error)
            == (StoreFetched(cfg, before, host, items[d], items[d].result.value, now),
                Decided(VerifyServerBadge(items[d].result.value, cert, host)))
    decreases d - i
  {
    before := s;
    if i < d {
      match items[i].result {
        case Err(e) =>
          var s1 := if e.IsUnavailable() then s else InvalidateFqdn(s, host);
          StepsKeepIndexed(cfg, s, host, items[i], Blank(), now, []);
          before := DecidingBadgeIsStored(cfg, s1, host, cert, now, items, i + 1, d, mismatch, RecordTlogError(error, e));
        case Ok(badge) =>
          StepsKeepIndexed(cfg, s, host, items[i], badge, now, []);
          before := DecidingBadgeIsStored(cfg, StoreFetched(cfg, s, host, items[i], badge, now), host, cert, now, items,
                                          i + 1, d, Some(VerifyServerBadge(badge, cert, host)), error);
      }
    }
  }

  /**
   * A success by a fetched badge, kept by the store, is answered by the cache alone until its lifetime
   * is over, whatever DNS and the log would say then.
   */
  lemma SuccessIsCached(
    cfg: Config, s: CacheState, host: string, cert: CertIdentity, w: World, next: World, d: nat, version: Version)
    requires cfg.caching && Indexed(s) && Lower(host) == host
    requires ScanCache(cfg, s, host, cert, w.scanAt).None? && w.first.dns.Found?
    requires var items := RoundItems(cfg, w.first);
             && d < |items| && items[d].result.Ok? && ServerEvidence(items[d].result.value, cert, host)
             && (forall k :: 0 <= k < d ==> !Decisive(items[k], cert, host))
             && BelongsTo(items[d].record, items[d].result.value, version) && items[d].evicted == {}
    requires Within(w.first.now, next.scanAt, cfg.lifetimes.defaultTtl)
    requires Within(w.first.now, next.scanAt, cfg.lifetimes.hardTtl)
    ensures var (s', outcome) := VerifyBadge(cfg, s, host, cert, w);
            outcome.IsSuccess() && VerifyBadge(cfg, s', host, cert, next).1.IsSuccess()
            && VerifyBadge(cfg, s', host, cert, next).0 == s'
  {
    var items, badge := RoundItems(cfg, w.first), RoundItems(cfg, w.first)[d].result.value;
    var indexed := IndexRecords(cfg, s, host, SortNewestFirst(w.first.dns.records));
    StepsKeepIndexed(cfg, s, host, items[d], badge, w.first.now, SortNewestFirst(w.first.dns.records));
    ServerDecision(badge, cert, host);
    var before := DecidingBadgeIsStored(cfg, indexed, host, cert, w.first.now, items, 0, d, None, None);
    var s' := VerifyBadge(cfg, s, host, cert, w).0;
    StepsKeepIndexed(cfg, before, host, items[d], badge, w.first.now, []);
    assert s' == StoreFetched(cfg, before, host, items[d], badge, w.first.now);
    assert FreshEntry(cfg, s', host, next.scanAt, version, badge);
    ScanMeans(cfg, s', host, cert, next.scanAt);
  }

  // ----- the DANE gate -----

  ghost predicate DanePassed(
    cfg: Config, cert: CertIdentity, tlsa: Result<seq<Dane.TlsaRecord>, Dane.DnsError>)
  {
    || cfg.dane.Disabled?
    || (tlsa.Ok? && ((cfg.dane.ValidateIfPresent? && tlsa.value == [])
                     || exists r :: r in tlsa.value && Dane.Binds(cfg.digests, r, cert)))
  }

  /** Whatever its source, an outcome succeeds exactly when it did before the gate and DANE passed. */
  lemma DaneGate(
    cfg: Config, cert: CertIdentity, tlsa: Result<seq<Dane.TlsaRecord>, Dane.DnsError>, outcome: Outcome)
    ensures EnforceDane(cfg, cert, tlsa, outcome).IsSuccess() <==> outcome.IsSuccess() && DanePassed(cfg, cert, tlsa)
    ensures EnforceDane(cfg, cert, tlsa, outcome).IsSuccess() ==> EnforceDane(cfg, cert, tlsa, outcome) == outcome
  {
    if tlsa.Ok? {
      Dane.AcceptanceMeans(tlsa.value, cfg.dane, r => Dane.MatchesCert(cfg.digests, r, cert));
      forall r | r in tlsa.value ensures Dane.MatchesCert(cfg.digests, r, cert) == Some(true) <==> Dane.Binds(cfg.digests, r, cert) {
        Dane.MatchMeans(cfg.digests, r, cert);
      }
    }
  }

  /** What the gate reports when it turns a success away. */
  lemma DaneReports(
    cfg: Config, cert: CertIdentity, tlsa: Result<seq<Dane.TlsaRecord>, Dane.DnsError>, outcome: Outcome)
    requires outcome.IsSuccess() && !DanePassed(cfg, cert, tlsa)
    ensures var report := EnforceDane(cfg, cert, tlsa, outcome);
            match tlsa
            case Err(e) => report == DaneFailure(Dane.DnsLookup(e))
            case Ok(records) =>
              if records == [] then report == DaneFailure(Dane.NoTlsaRecords)
              else if exists r :: r in records && !Dane.Evaluable(r, cert) then report == DaneFailure(Dane.InvalidRecord)
              else report == DaneFailure(Dane.FingerprintMismatch)
  {
    if tlsa.Ok? {
      var matches := r => Dane.MatchesCert(cfg.digests, r, cert);
      Dane.FirstMatchExists(tlsa.value, matches);
      forall r | r in tlsa.value
        ensures matches(r) == Some(true) <==> Dane.Binds(cfg.digests, r, cert)
        ensures matches(r).Some? <==> Dane.Evaluable(r, cert)
      {
        Dane.MatchMeans(cfg.digests, r, cert);
        Dane.EvaluableMeans(cfg.digests, r, cert);
      }
    }
  }

  // ----- prefetch -----

  ghost predicate FirstConnectable(items: seq<Item>, d: nat) {
    && d < |items| && items[d].result.Ok? && Connectable(items[d].result.value.status)
    && forall i :: 0 <= i < d ==> items[i].result.Ok? ==> !Connectable(items[i].result.value.status)
  }

  lemma {:induction false} PrefetchChoice(
    cfg: Config, s: CacheState, host: string, now: nat, items: seq<Item>, i: nat,
    preferred: Option<Badge>, error: Option<AnsError>)
    requires i <= |items|
    ensures var (_, choice, last) := PrefetchItems(cfg, s, host, now, items, i, preferred, error);
            && (preferred.Some? ==> choice == preferred)
            && (forall d: nat :: preferred.None? && FirstConnectable(items[i..], d) ==>
                  choice == Some(items[i..][d].result.value))
            && (preferred.None? && (forall d: nat :: !FirstConnectable(items[i..], d)) ==> choice == None)
            && last == FoldFrom(items, i, error)
    decreases |items| - i
  {
    if i < |items| {
      var rest := items[i..];
      assert rest[1..] == items[i + 1..];
      var connectable := items[i].result.Ok? && items[i].result.value.status.ValidForConnection();
      assert connectable <==> FirstConnectable(rest, 0);
      if !connectable {
        assert forall d: nat :: d > 0 ==> (FirstConnectable(rest, d) <==> FirstConnectable(rest[1..], d - 1));
        assert forall d: nat :: FirstConnectable(rest[1..], d) ==> FirstConnectable(rest, d + 1);
      }
      match items[i].result {
        case Err(e) =>
          var s1 := if e.IsUnavailable() then s else InvalidateFqdn(s, host);
          PrefetchChoice(cfg, s1, host, now, items, i + 1, preferred, RecordTlogError(error, e));
        case Ok(badge) =>
          var s1 := StoreFetched(cfg, s, host, items[i], badge, now);
          var choice := if preferred.None? && badge.status.ValidForConnection() then Some(badge) else preferred;
          PrefetchChoice(cfg, s1, host, now, items, i + 1, choice, error);
      }
    }
  }

  /** Prefetch returns the first connectable badge in version order, or else the fold of the failures. */
  lemma PrefetchReturnsFirstConnectable(cfg: Config, s: CacheState, host: string, r: Round)
    requires r.dns.Found?
    ensures var items := RoundItems(cfg, r);
            var result := Prefetch(cfg, s, host, r).1;
            && (forall d: nat :: FirstConnectable(items, d) ==> result == Ok(items[d].result.value))
            && ((forall d: nat :: !FirstConnectable(items, d)) ==>
                  result.Err? && (Failures(items) != [] ==> Some(result.error) == FoldErrors(Failures(items))))
  {
    var items := RoundItems(cfg, r);
    var indexed := IndexRecords(cfg, s, host, SortNewestFirst(r.dns.records));
    assert items[0..] == items && items[..0] == [] && items[..|items|] == items;
    PrefetchChoice(cfg, indexed, host, r.now, items, 0, None, None);
    FoldFromStart(items, 0);
    if Failures(items) != [] {
      FoldedErrorUnavailableIff(Failures(items));
    }
  }

  /** Prefetching every record disturbs the cache like a pass that never stops early. */
  lemma PrefetchItemsEntry(
    cfg: Config, s: CacheState, host: string, now: nat, items: seq<Item>, i: nat,
    preferred: Option<Badge>, error: Option<AnsError>, key: CacheKey)
    requires i <= |items| && Indexed(s) && Lower(host) == host
    ensures var s' := PrefetchItems(cfg, s, host, now, items, i, preferred, error).0;
            Indexed(s') && PassOrigin(cfg, s, s', items, i, |items|, host, now, key)
  {
    hide PrefetchItems, Processed, StoredBy, NoDeterminate, NotReplaced;
    PrefetchProcesses(cfg, s, host, now, items, i, preferred, error);
    ProcessedExact(cfg, s, host, now, items, i, |items|, key);
  }

  ghost predicate PrefetchPurges(cfg: Config, r: Round) {
    match r.dns
    case Absent => true
    case Failed(e) => Dane.DnsAnswered(e)
    case Found(_) => var items := RoundItems(cfg, r); !NoDeterminate(items, 0, |items|)
  }

  /** What a prefetch can have left in the cache under `key`: fetched, and no determinate failure after it. */
  ghost predicate PrefetchLeft(cfg: Config, r: Round, host: string, key: CacheKey, entry: CachedBadge) {
    r.dns.Found? && var items := RoundItems(cfg, r); Left(cfg, items, |items|, host, r.now, key, entry)
  }

  ghost predicate PrefetchStores(cfg: Config, r: Round, host: string, key: CacheKey) {
    cfg.caching && exists entry :: PrefetchLeft(cfg, r, host, key, entry)
  }

  /** Every cache entry after a prefetch is an earlier one, neither purged nor stored over, or a badge it fetched and did not overrule. */
  lemma PrefetchEntry(cfg: Config, s: CacheState, host: string, r: Round, key: CacheKey)
    requires Indexed(s) && Lower(host) == host
    ensures var s' := Prefetch(cfg, s, host, r).0;
            && Indexed(s')
            && (key in s'.store ==>
                  || Untouched(s, s', host, PrefetchPurges(cfg, r), PrefetchStores(cfg, r, host, key), key)
                  || PrefetchLeft(cfg, r, host, key, s'.store[key]))
  {
    hide PrefetchItems, InvalidateFqdn, RoundItems, FetchAll, BelongsTo, NoDeterminate;
    OpKeepsIndexed(s, InvalidateFqdnOp(host));
    InvalidationIsExact(s, host, key);
    if r.dns.Failed? {
      Dane.DnsErrorsSplit(r.dns.error);
    }
    if r.dns.Found? {
      var sorted := SortNewestFirst(r.dns.records);
      var indexed := IndexRecords(cfg, s, host, sorted);
      StepsKeepIndexed(cfg, s, host, Item(Record(None, ""), Ok(Blank()), {}), Blank(), r.now, sorted);
      assert key in indexed.store ==> Kept(s, indexed, key);
      PrefetchItemsEntry(cfg, indexed, host, r.now, RoundItems(cfg, r), 0, None, None, key);
    }
  }
}
