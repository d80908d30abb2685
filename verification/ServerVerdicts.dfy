/** The exact verdict of a server verification in every world, in terms of records, log answers and cache entries. */
module ServerVerdicts {
  import opened Wrappers
  import opened Text
  import opened Names
  import opened Badges
  import opened BadgeCache
  import opened Outcomes
  import opened Records
  import opened BadgeRules
  import opened ServerVerifier
  import opened ServerProperties
  import opened ServerOutcomes
  import Dane

  // ----- what a round brings -----

  /** Record `i`, newest version first, has a trusted HTTPS URL, and the log answered with this badge, its status known. */
  ghost predicate Fetched(cfg: Config, r: Round, i: nat, badge: Badge) {
    && r.dns.Found? && i < |r.dns.records| && i < |SortNewestFirst(r.dns.records)|
    && TrustedUrl(cfg, SortNewestFirst(r.dns.records)[i].url)
    && r.fetch(i).result == Ok(badge) && badge.status != Unknown
  }

  /** The first fetched badge that is not a mismatch. */
  ghost predicate Decides(cfg: Config, r: Round, cert: CertIdentity, d: nat, badge: Badge) {
    && Fetched(cfg, r, d, badge) && !ServerMismatch(badge, cert)
    && forall k: nat, other :: k < d && Fetched(cfg, r, k, other) ==> ServerMismatch(other, cert)
  }

  /** The badge that decides the round is evidence for the certificate. */
  ghost predicate RoundVouches(cfg: Config, r: Round, host: string, cert: CertIdentity, badge: Badge) {
    ServerEvidence(badge, cert, host) && exists d: nat :: Decides(cfg, r, cert, d, badge)
  }

  /** Some badge was fetched and every one is a mismatch. */
  ghost predicate AllMismatched(cfg: Config, r: Round, cert: CertIdentity) {
    && (exists i: nat, badge :: Fetched(cfg, r, i, badge))
    && forall i: nat, badge :: Fetched(cfg, r, i, badge) ==> ServerMismatch(badge, cert)
  }

  ghost predicate NothingFetched(cfg: Config, r: Round) {
    forall i: nat, badge :: !Fetched(cfg, r, i, badge)
  }

  lemma ItemFetched(cfg: Config, r: Round, i: nat, badge: Badge)
    requires r.dns.Found?
    ensures i < |RoundItems(cfg, r)| && RoundItems(cfg, r)[i].result == Ok(badge) <==> Fetched(cfg, r, i, badge)
  {
    SortedHasSameRecords(r.dns.records);
    if i < |RoundItems(cfg, r)| {
      FetchedMeans(cfg, SortNewestFirst(r.dns.records)[i].url, r.fetch(i).result, badge);
    }
  }

  lemma MismatchMeans(cfg: Config, r: Round, cert: CertIdentity, host: string)
    requires r.dns.Found?
    ensures AllMismatched(cfg, r, cert) <==> AllMismatch(RoundItems(cfg, r), cert, host)
    ensures NothingFetched(cfg, r) <==> !AnyFetched(RoundItems(cfg, r))
  {
    hide Fetched, RoundItems, ServerMismatch;
    var items := RoundItems(cfg, r);
    forall i: nat, badge ensures i < |items| && items[i].result == Ok(badge) <==> Fetched(cfg, r, i, badge) {
      ItemFetched(cfg, r, i, badge);
    }
    if AnyFetched(items) {
      var i :| 0 <= i < |items| && items[i].result.Ok?;
      assert Fetched(cfg, r, i, items[i].result.value);
    }
    if AllMismatched(cfg, r, cert) {
      forall i | 0 <= i < |items| ensures !Decisive(items[i], cert, host) {
        assert items[i].result.Ok? ==> Fetched(cfg, r, i, items[i].result.value);
      }
    }
  }

  /** The three ways a round ends. */
  lemma RoundEnds(cfg: Config, s: CacheState, host: string, cert: CertIdentity, r: Round)
    returns (d: nat, badge: Badge)
    requires r.dns.Found?
    ensures var end := PassOver(cfg, s, host, cert, r).1;
            || (Decides(cfg, r, cert, d, badge) && end == Decided(VerifyServerBadge(badge, cert, host)))
            || (AllMismatched(cfg, r, cert) && end.Exhausted? && end.mismatch.Some? && !end.mismatch.value.IsSuccess())
            || (NothingFetched(cfg, r) && end.Exhausted? && end.mismatch.None?
                && end.error == FoldErrors(Failures(RoundItems(cfg, r))))
  {
    hide Fetched, RoundItems, ServerMismatch, VerifyServerBadge, RunPass;
    var items := RoundItems(cfg, r);
    var indexed := IndexRecords(cfg, s, host, SortNewestFirst(r.dns.records));
    d := FirstDecisive(items, cert, host, 0);
    FirstDecisiveWins(cfg, indexed, host, cert, r.now, items, d);
    PassMismatchIsNoSuccess(cfg, s, host, cert, r);
    MismatchMeans(cfg, r, cert, host);
    if d < |items| {
      badge := items[d].result.value;
      ItemFetched(cfg, r, d, badge);
      forall k: nat, other | k < d && Fetched(cfg, r, k, other) ensures ServerMismatch(other, cert) {
        ItemFetched(cfg, r, k, other);
        assert !Decisive(items[k], cert, host);
      }
    } else {
      badge := Blank();
    }
  }

  lemma DecisionIsUnique(cfg: Config, r: Round, cert: CertIdentity, i: nat, a: Badge, j: nat, b: Badge)
    requires Decides(cfg, r, cert, i, a) && Decides(cfg, r, cert, j, b)
    ensures i == j && a == b
  {}

  // ----- success -----

  lemma NoRecordsNoVouch(cfg: Config, r: Round, host: string, cert: CertIdentity)
    requires !r.dns.Found?
    ensures !AllMismatched(cfg, r, cert) && NothingFetched(cfg, r)
    ensures forall badge :: !RoundVouches(cfg, r, host, cert, badge)
  {}

  /** A round in which badge `b` decides vouches only by that badge. */
  lemma DecidedVouch(cfg: Config, r: Round, host: string, cert: CertIdentity, d: nat, b: Badge)
    requires Decides(cfg, r, cert, d, b)
    ensures !AllMismatched(cfg, r, cert) && !NothingFetched(cfg, r)
    ensures forall badge :: RoundVouches(cfg, r, host, cert, badge) <==> badge == b && ServerEvidence(b, cert, host)
  {
    hide Fetched, ServerMismatch, ServerEvidence;
    forall badge, i: nat | Decides(cfg, r, cert, i, badge) ensures badge == b {
      DecisionIsUnique(cfg, r, cert, i, badge, d, b);
    }
  }

  lemma UndecidedVouch(cfg: Config, r: Round, host: string, cert: CertIdentity)
    requires AllMismatched(cfg, r, cert) || NothingFetched(cfg, r)
    ensures forall badge :: !RoundVouches(cfg, r, host, cert, badge)
  {
    hide Fetched, ServerMismatch, ServerEvidence;
  }

  /** After the purge the refresh succeeds exactly by the badge that decides the second lookup. */
  lemma RefreshSucceedsIff(cfg: Config, s: CacheState, host: string, cert: CertIdentity, r: Round, badge: Badge)
    requires Indexed(s) && Lower(host) == host
    ensures Refresh(cfg, s, host, cert, r).1.IsSuccess() <==> exists b :: RoundVouches(cfg, r, host, cert, b)
    ensures RoundVouches(cfg, r, host, cert, badge) ==> Refresh(cfg, s, host, cert, r).1 == Verified(badge, cert.fingerprint)
  {
    hide ServerEvidence, VerifyServerBadge, PassOver, AfterAnsError, RoundVouches, Decides, AllMismatched, NothingFetched;
    if r.dns.Found? {
      var d, b := RoundEnds(cfg, InvalidateFqdn(s, host), host, cert, r);
      ServerVerdictKinds(b, cert, host);
      if Decides(cfg, r, cert, d, b) {
        DecidedVouch(cfg, r, host, cert, d, b);
        assert RoundVouches(cfg, r, host, cert, b) <==> ServerEvidence(b, cert, host);
      } else {
        UndecidedVouch(cfg, r, host, cert);
        MismatchMeans(cfg, r, cert, host);
        RefreshSucceedsOnlyFresh(cfg, s, host, cert, r);
      }
    } else {
      NoRecordsNoVouch(cfg, r, host, cert);
    }
  }

  /** Cached evidence within its lifetime, or admitted and still listed while the round is down. */
  ghost predicate CacheVouches(
    cfg: Config, s: CacheState, host: string, cert: CertIdentity, w: World, version: Version, badge: Badge)
  {
    && ServerEvidence(badge, cert, host)
    && (FreshEntry(cfg, s, host, w.scanAt, version, badge)
        || (Outage(cfg, w.first) && StaleEntry(cfg, s, host, w.first.now, version, badge) && StillListed(cfg, w.first, version)))
  }

  /** The second lookup counts only when the first brought nothing but mismatches. */
  ghost predicate LookupVouches(cfg: Config, host: string, cert: CertIdentity, w: World, badge: Badge) {
    || RoundVouches(cfg, w.first, host, cert, badge)
    || (AllMismatched(cfg, w.first, cert) && RoundVouches(cfg, w.refresh, host, cert, badge))
  }

  lemma RecordsSucceedIff(cfg: Config, s: CacheState, host: string, cert: CertIdentity, w: World, badge: Badge)
    requires w.first.dns.Found? && Indexed(s) && Lower(host) == host && !Outage(cfg, w.first)
    ensures VerifyRecords(cfg, s, host, cert, w.first, w.refresh).1.IsSuccess()
            <==> exists b :: LookupVouches(cfg, host, cert, w, b)
    ensures LookupVouches(cfg, host, cert, w, badge) ==>
              VerifyRecords(cfg, s, host, cert, w.first, w.refresh).1 == Verified(badge, cert.fingerprint)
  {
    hide ServerEvidence, VerifyServerBadge, PassOver, RoundVouches, Decides, AllMismatched, NothingFetched, Refresh, Outage;
    var d, b := RoundEnds(cfg, s, host, cert, w.first);
    ServerVerdictKinds(b, cert, host);
    FallbackNeedsOutage(cfg, s, host, cert, w.first);
    PassOverEntry(cfg, s, host, cert, w.first, CacheKey.Url(""));
    var (s1, end) := PassOver(cfg, s, host, cert, w.first);
    RefreshSucceedsIff(cfg, s1, host, cert, w.refresh, badge);
    if Decides(cfg, w.first, cert, d, b) {
      DecidedVouch(cfg, w.first, host, cert, d, b);
      assert LookupVouches(cfg, host, cert, w, b) <==> ServerEvidence(b, cert, host);
    } else {
      UndecidedVouch(cfg, w.first, host, cert);
      DisjointEnds(cfg, w.first, cert);
      assert forall b :: LookupVouches(cfg, host, cert, w, b)
                         <==> AllMismatched(cfg, w.first, cert) && RoundVouches(cfg, w.refresh, host, cert, b);
      if end.mismatch.None? {
        ReportedIsNoSuccess(cfg, s1, host, cert, w.first, end);
      }
    }
  }

  /** Without an outage a round that fetched nothing ends in a failure. */
  lemma ReportedIsNoSuccess(cfg: Config, s: CacheState, host: string, cert: CertIdentity, r: Round, end: PassEnd)
    requires end.Exhausted? && (end.error.Some? ==> !end.error.value.MayUseStale())
    ensures end.error.Some? ==> !AfterAnsError(cfg, s, end.error.value, host, cert, r.now).1.IsSuccess()
  {}

  lemma DisjointEnds(cfg: Config, r: Round, cert: CertIdentity)
    ensures !(AllMismatched(cfg, r, cert) && NothingFetched(cfg, r))
  {}

  /** An outage brings nothing to decide by. */
  lemma OutageBringsNothing(cfg: Config, r: Round, host: string, cert: CertIdentity)
    requires Outage(cfg, r)
    ensures !AllMismatched(cfg, r, cert)
    ensures forall badge :: !RoundVouches(cfg, r, host, cert, badge)
  {
    hide Fetched, RoundItems;
    if r.dns.Found? {
      MismatchMeans(cfg, r, cert, host);
      UndecidedVouch(cfg, r, host, cert);
      DisjointEnds(cfg, r, cert);
    } else {
      NoRecordsNoVouch(cfg, r, host, cert);
    }
  }

  /**
   * Server verification succeeds in a world exactly when the cache vouches for the certificate, the badge
   * that decides the first lookup does, or, every badge of the first lookup being a mismatch, the badge
   * that decides the second one does. The badge of the lookups is the one reported.
   */
  lemma ServerSucceedsIff(cfg: Config, s: CacheState, host: string, cert: CertIdentity, w: World)
    requires Indexed(s) && Lower(host) == host
    ensures VerifyBadge(cfg, s, host, cert, w).1.IsSuccess()
            <==> (exists v, b :: CacheVouches(cfg, s, host, cert, w, v, b)) || (exists b :: LookupVouches(cfg, host, cert, w, b))
  {
    hide ServerEvidence, VerifyRecords, LookupVouches, Outage, StillListed, StaleEntry, FreshEntry;
    if Outage(cfg, w.first) {
      OutageSucceedsIff(cfg, s, host, cert, w);
      OutageLooksUpNothing(cfg, host, cert, w);
    } else {
      SettledSucceedsIff(cfg, s, host, cert, w);
    }
    forall v, b ensures CacheVouches(cfg, s, host, cert, w, v, b)
                        <==> ServerEvidence(b, cert, host)
                             && (FreshEntry(cfg, s, host, w.scanAt, v, b)
                                 || (Outage(cfg, w.first) && StaleEntry(cfg, s, host, w.first.now, v, b)
                                     && StillListed(cfg, w.first, v))) {}
  }

  lemma OutageLooksUpNothing(cfg: Config, host: string, cert: CertIdentity, w: World)
    requires Outage(cfg, w.first)
    ensures forall b :: !LookupVouches(cfg, host, cert, w, b)
  {
    hide RoundVouches, AllMismatched, Outage;
    OutageBringsNothing(cfg, w.first, host, cert);
  }

  /** When the first lookup is no outage, only a fresh entry or a lookup can vouch. */
  lemma SettledSucceedsIff(cfg: Config, s: CacheState, host: string, cert: CertIdentity, w: World)
    requires Indexed(s) && Lower(host) == host && !Outage(cfg, w.first)
    ensures VerifyBadge(cfg, s, host, cert, w).1.IsSuccess()
            <==> (exists v, b :: FreshEntry(cfg, s, host, w.scanAt, v, b) && ServerEvidence(b, cert, host))
                 || (exists b :: LookupVouches(cfg, host, cert, w, b))
  {
    hide ServerEvidence, VerifyRecords, RoundVouches, AllMismatched, FreshEntry, ScanCache;
    ScanMeans(cfg, s, host, cert, w.scanAt);
    if ScanCache(cfg, s, host, cert, w.scanAt).None? {
      if w.first.dns.Found? {
        hide LookupVouches;
        RecordsSucceedIff(cfg, s, host, cert, w, Blank());
      } else {
        NoRecordsNoVouch(cfg, w.first, host, cert);
      }
    }
  }

  // ----- answers and outages by name -----

  /** Record `i` could not be checked: the log could not be reached, or does not know the status. */
  ghost predicate Unanswered(cfg: Config, r: Round, i: nat) {
    && r.dns.Found? && i < |SortNewestFirst(r.dns.records)| && TrustedUrl(cfg, SortNewestFirst(r.dns.records)[i].url)
    && match r.fetch(i).result
       case Err(e) => e in {HttpError, ServiceUnavailable, StatusUnknown}
       case Ok(badge) => badge.status == Unknown
  }

  /** Record `i` was settled against: an untrusted URL, a missing badge, or a malformed answer. */
  ghost predicate SettledAgainst(cfg: Config, r: Round, i: nat) {
    && r.dns.Found? && i < |SortNewestFirst(r.dns.records)|
    && (TrustedUrl(cfg, SortNewestFirst(r.dns.records)[i].url) ==>
          r.fetch(i).result.Err?
          && r.fetch(i).result.error in {NotFound, InvalidResponse, InvalidUrl, InvalidHeader, UntrustedDomain})
  }

  lemma ItemFails(cfg: Config, r: Round, i: nat)
    requires r.dns.Found? && i < |RoundItems(cfg, r)|
    ensures SettledAgainst(cfg, r, i) <==> RoundItems(cfg, r)[i].Determinate()
    ensures Unanswered(cfg, r, i) <==> RoundItems(cfg, r)[i].result.Err? && !LogAnswered(RoundItems(cfg, r)[i].result.error)
  {
    var url := SortNewestFirst(r.dns.records)[i].url;
    FetchFails(cfg, url, r.fetch(i).result);
    if r.fetch(i).result.Err? {
      LogErrorsSplit(r.fetch(i).result.error);
    }
    if TrustedUrl(cfg, url) && r.fetch(i).result.Ok? {
      FetchedMeans(cfg, url, r.fetch(i).result, r.fetch(i).result.value);
    }
  }

  /** An outage: DNS failed to look up or timed out, or no record could be checked. */
  lemma OutageMeans(cfg: Config, r: Round)
    ensures Outage(cfg, r)
            <==> match r.dns
                 case Absent => false
                 case Failed(e) => e in {Dane.LookupFailed, Dane.Timeout}
                 case Found(records) => records != [] && forall i: nat :: i < |records| ==> Unanswered(cfg, r, i)
  {
    if r.dns.Found? {
      SortedHasSameRecords(r.dns.records);
      forall i: nat | i < |RoundItems(cfg, r)|
        ensures Unanswered(cfg, r, i) <==> RoundItems(cfg, r)[i].result.Err? && !LogAnswered(RoundItems(cfg, r)[i].result.error)
      {
        ItemFails(cfg, r, i);
      }
    } else if r.dns.Failed? {
      Dane.DnsErrorsSplit(r.dns.error);
    }
  }

  /** DNS said that there is nothing, or answered with something other than an outage. */
  ghost predicate DnsSettled(answer: DnsAnswer) {
    answer.Absent?
    || (answer.Failed? && answer.error in {Dane.NotFound, Dane.DnssecFailed, Dane.InvalidFormat, Dane.ResolverError})
  }

  /** Record `k` was settled against before any badge decided. */
  ghost predicate LogSettled(cfg: Config, r: Round, cert: CertIdentity, k: nat) {
    SettledAgainst(cfg, r, k) && forall d: nat, badge :: Decides(cfg, r, cert, d, badge) ==> k < d
  }

  /**
   * A settled answer rejects: of the host only what this verification itself fetched and did not overrule
   * is left, and only a lookup can have succeeded, never cached evidence.
   */
  lemma SettledAnswerRejects(cfg: Config, s: CacheState, host: string, cert: CertIdentity, w: World, k: nat, key: CacheKey)
    requires Indexed(s) && Lower(host) == host && ScanCache(cfg, s, host, cert, w.scanAt).None?
    requires DnsSettled(w.first.dns) || LogSettled(cfg, w.first, cert, k)
    ensures var (s', outcome) := VerifyBadge(cfg, s, host, cert, w);
            && (OfHost(key, host) && key in s'.store ==> ServerLeft(cfg, s, host, cert, w, key, s'.store[key]))
            && (outcome.IsSuccess() ==> exists b :: LookupVouches(cfg, host, cert, w, b))
            && (DnsSettled(w.first.dns) ==> !outcome.IsSuccess() && !(OfHost(key, host) && key in s'.store))
  {
    hide VerifyBadge, LookupVouches, ScanCache, RoundItems, RecordsLeft, LogSettled, FreshEntry, StaleEntry, ServerEvidence;
    ServerEntry(cfg, s, host, cert, w, key);
    SettledIsNoOutage(cfg, w.first, cert, host, k);
    ScanMeans(cfg, s, host, cert, w.scanAt);
    SettledSucceedsIff(cfg, s, host, cert, w);
    if DnsSettled(w.first.dns) {
      NothingToLookUp(cfg, host, cert, w);
    }
  }

  lemma NothingToLookUp(cfg: Config, host: string, cert: CertIdentity, w: World)
    requires !w.first.dns.Found?
    ensures forall b :: !LookupVouches(cfg, host, cert, w, b)
  {
    hide RoundVouches, AllMismatched;
    NoRecordsNoVouch(cfg, w.first, host, cert);
  }

  lemma SettledIsNoOutage(cfg: Config, r: Round, cert: CertIdentity, host: string, k: nat)
    requires DnsSettled(r.dns) || LogSettled(cfg, r, cert, k)
    ensures !Outage(cfg, r)
    ensures match r.dns case Absent => true case Failed(e) => Dane.DnsAnswered(e) case Found(_) => RecordsPurge(cfg, r, host, cert)
  {
    if r.dns.Found? {
      var items := RoundItems(cfg, r);
      ItemFails(cfg, r, k);
      var d := FirstDecisive(items, cert, host, 0);
      StopsAtFirstDecisive(items, 0, d, cert, host);
      if d < |items| {
        DecisiveItemDecides(cfg, r, cert, host, d);
      }
      assert items[k].Determinate();
    }
  }

  lemma {:induction false} StopsAtFirstDecisive(items: seq<Item>, i: nat, d: nat, cert: CertIdentity, host: string)
    requires i <= d <= |items| && (forall k :: 0 <= k < d ==> !Decisive(items[k], cert, host))
    requires d < |items| ==> Decisive(items[d], cert, host)
    ensures Stop(items, i, cert, host) == if d < |items| then d + 1 else d
    decreases d - i
  {
    hide Decisive;
    if i < d {
      StopsAtFirstDecisive(items, i + 1, d, cert, host);
    }
  }

  lemma DecisiveItemDecides(cfg: Config, r: Round, cert: CertIdentity, host: string, d: nat)
    requires r.dns.Found? && d < |RoundItems(cfg, r)| && Decisive(RoundItems(cfg, r)[d], cert, host)
    requires forall k :: 0 <= k < d ==> !Decisive(RoundItems(cfg, r)[k], cert, host)
    ensures Decides(cfg, r, cert, d, RoundItems(cfg, r)[d].result.value)
  {
    hide Fetched, RoundItems, ServerMismatch;
    var items := RoundItems(cfg, r);
    ItemFetched(cfg, r, d, items[d].result.value);
    forall k: nat, other | k < d && Fetched(cfg, r, k, other) ensures ServerMismatch(other, cert) {
      ItemFetched(cfg, r, k, other);
      assert !Decisive(items[k], cert, host);
    }
  }

  /** An outage drops nothing but the versions DNS no longer lists, and changes nothing else. */
  lemma OutageKeepsEntries(cfg: Config, s: CacheState, host: string, cert: CertIdentity, w: World, key: CacheKey)
    requires Indexed(s) && Lower(host) == host && Outage(cfg, w.first)
    ensures var s' := VerifyBadge(cfg, s, host, cert, w).0;
            && (key in s'.store <==> key in s.store
                                     && (OfHost(key, host) && ScanCache(cfg, s, host, cert, w.scanAt).None? ==>
                                           StillListed(cfg, w.first, key.version)))
            && (key in s'.store ==> s'.store[key] == s.store[key])
  {
    hide ScanCache, StaleSuccess;
    if ScanCache(cfg, s, host, cert, w.scanAt).None? && w.first.dns.Found? {
      var sorted := SortNewestFirst(w.first.dns.records);
      OutagePassKeeps(cfg, IndexRecords(cfg, s, host, sorted), host, cert, w.first.now, RoundItems(cfg, w.first), 0, None, None);
      FallbackNeedsOutage(cfg, s, host, cert, w.first);
      SetVersionsIsExact(s, host, ListedVersions(sorted), key);
      if OfHost(key, host) {
        StillListedMeans(cfg, w.first, key.version);
      }
    } else if w.first.dns.Failed? {
      Dane.DnsErrorsSplit(w.first.dns.error);
    }
  }

  // ----- what a failure reports -----

  /** The failure of a round whose badges are not all mismatches. */
  ghost predicate RoundReports(cfg: Config, r: Round, cert: CertIdentity, outcome: Outcome)
    requires r.dns.Found?
  {
    if NothingFetched(cfg, r) then
      if r.dns.records == [] then outcome == NotAnsAgent
      else outcome.TlogFailure? && Reported(Failures(RoundItems(cfg, r)), outcome.tlog)
    else exists d: nat, badge :: Decides(cfg, r, cert, d, badge) && Condemns(badge, outcome)
  }

  /** The badge's own status, or else the hosts, condemn the server. */
  ghost predicate Condemns(badge: Badge, outcome: Outcome) {
    if Connectable(badge.status) then outcome.HostnameMismatch? && outcome.badge == badge else outcome == InvalidStatus(badge)
  }

  lemma FailuresFromItems(items: seq<Item>)
    requires items != [] && !AnyFetched(items)
    ensures Failures(items) != []
  {
    FailuresMeans(items, items[0].result.error);
  }

  /** How a pass that does not succeed ends. */
  lemma PassReports(cfg: Config, s: CacheState, host: string, cert: CertIdentity, r: Round)
    requires r.dns.Found?
    ensures var end := PassOver(cfg, s, host, cert, r).1;
            && (AllMismatched(cfg, r, cert) <==> end.Exhausted? && end.mismatch.Some?)
            && (end.Decided? && !end.outcome.IsSuccess() ==> RoundReports(cfg, r, cert, end.outcome))
            && (end.Exhausted? && end.mismatch.None? && end.error.Some? ==>
                  end.error.value.TransparencyLog? && RoundReports(cfg, r, cert, TlogFailure(end.error.value.tlog)))
            && (end.Exhausted? && end.mismatch.None? && end.error.None? ==> RoundReports(cfg, r, cert, NotAnsAgent))
  {
    hide PassOver, Fetched, ServerMismatch, VerifyServerBadge, RoundItems, ServerEvidence;
    var items := RoundItems(cfg, r);
    var d, b := RoundEnds(cfg, s, host, cert, r);
    SortedHasSameRecords(r.dns.records);
    ServerVerdictKinds(b, cert, host);
    MismatchMeans(cfg, r, cert, host);
    RoundItemCount(cfg, r);
    if NothingFetched(cfg, r) && items != [] {
      FailuresFromItems(items);
      FoldReports(Failures(items));
    }
  }

  lemma RoundItemCount(cfg: Config, r: Round)
    requires r.dns.Found?
    ensures |RoundItems(cfg, r)| == |SortNewestFirst(r.dns.records)|
  {}

  /** The failure after the first lookup brought nothing but mismatches. */
  ghost predicate RefreshReports(cfg: Config, r: Round, cert: CertIdentity, outcome: Outcome) {
    match r.dns
    case Absent => outcome == NotAnsAgent
    case Failed(e) => outcome == DnsFailure(e)
    case Found(_) => if AllMismatched(cfg, r, cert) then outcome.FingerprintMismatch? else RoundReports(cfg, r, cert, outcome)
  }

  /** What a failed verification reports. */
  ghost predicate FailureReports(cfg: Config, w: World, cert: CertIdentity, outcome: Outcome) {
    match w.first.dns
    case Absent => outcome == NotAnsAgent
    case Failed(e) => outcome == DnsFailure(e)
    case Found(_) =>
      if AllMismatched(cfg, w.first, cert) then RefreshReports(cfg, w.refresh, cert, outcome)
      else RoundReports(cfg, w.first, cert, outcome)
  }

  lemma RefreshFailureReports(cfg: Config, s: CacheState, host: string, cert: CertIdentity, r: Round)
    requires !Refresh(cfg, s, host, cert, r).1.IsSuccess()
    ensures RefreshReports(cfg, r, cert, Refresh(cfg, s, host, cert, r).1)
  {
    hide PassOver, AllMismatched, RoundReports, StaleSuccess;
    var purged := InvalidateFqdn(s, host);
    if r.dns.Found? {
      PassReports(cfg, purged, host, cert, r);
      MismatchIsReported(cfg, purged, host, cert, r);
      StaleIsSuccess(cfg, PassOver(cfg, purged, host, cert, r).0, host, cert, r.now);
    }
  }

  lemma MismatchIsReported(cfg: Config, s: CacheState, host: string, cert: CertIdentity, r: Round)
    requires r.dns.Found?
    ensures var end := PassOver(cfg, s, host, cert, r).1;
            end.Exhausted? && end.mismatch.Some? ==> end.mismatch.value.FingerprintMismatch?
  {
    hide RunPass;
    var indexed := IndexRecords(cfg, s, host, SortNewestFirst(r.dns.records));
    MismatchIsNoSuccess(cfg, indexed, host, cert, r.now, RoundItems(cfg, r), 0, None, None);
  }

  lemma StaleIsSuccess(cfg: Config, s: CacheState, host: string, cert: CertIdentity, now: nat)
    ensures StaleSuccess(cfg, s, host, cert, now).Some? ==> StaleSuccess(cfg, s, host, cert, now).value.IsSuccess()
  {
    if cfg.policy.FailOpenWithCache? {
      FirstSuccessMeans(YoungerThan(CollectForFqdn(s, cfg.lifetimes.hardTtl, now, host, true), now, cfg.policy.maxStaleness),
                        cert, host);
    }
  }

  /** A verification that fails reports what decided it: the DNS answer, the deciding badge, or the fold of the failures. */
  lemma ServerFailureMeans(cfg: Config, s: CacheState, host: string, cert: CertIdentity, w: World)
    requires !VerifyBadge(cfg, s, host, cert, w).1.IsSuccess()
    ensures FailureReports(cfg, w, cert, VerifyBadge(cfg, s, host, cert, w).1)
  {
    hide PassOver, AllMismatched, RoundReports, StaleSuccess, ScanCache, Refresh, RefreshReports;
    ScanIsSuccess(cfg, s, host, cert, w.scanAt);
    StaleIsSuccess(cfg, s, host, cert, w.first.now);
    if ScanCache(cfg, s, host, cert, w.scanAt).None? && w.first.dns.Found? {
      PassReports(cfg, s, host, cert, w.first);
      var s1 := PassOver(cfg, s, host, cert, w.first).0;
      StaleIsSuccess(cfg, s1, host, cert, w.first.now);
      if AllMismatched(cfg, w.first, cert) {
        RefreshFailureReports(cfg, s1, host, cert, w.refresh);
      }
    }
  }

  lemma ScanIsSuccess(cfg: Config, s: CacheState, host: string, cert: CertIdentity, now: nat)
    ensures ScanCache(cfg, s, host, cert, now).Some? ==> ScanCache(cfg, s, host, cert, now).value.IsSuccess()
  {
    FirstSuccessMeans(CollectForFqdn(s, cfg.lifetimes.hardTtl, now, host, false), cert, host);
  }
}
