/** Exactly what a round of records, and a prefetch, leave in the cache. */
module PassEffects {
  import opened Wrappers
  import opened Text
  import opened Names
  import opened Badges
  import opened BadgeCache
  import opened Outcomes
  import opened Records
  import opened BadgeRules
  import opened ServerVerifier
  import opened ServerProperties
  import opened ServerOutcomes
  import Dane

  // ----- one round of a server verification -----

  lemma PassOverExact(cfg: Config, s: CacheState, host: string, cert: CertIdentity, r: Round, key: CacheKey)
    requires r.dns.Found? && Indexed(s) && Lower(host) == host
    ensures var s' := PassOver(cfg, s, host, cert, r).0;
            var items := RoundItems(cfg, r);
            var stop := Stop(items, 0, cert, host);
            && (forall j: nat, entry :: LeavesEntry(cfg, items, j, stop, host, r.now, key, entry) ==>
                  key in s'.store && s'.store[key] == entry)
            && (key in s.store && Spares(cfg, items, 0, stop, host, key)
                && (OfHost(key, host) ==> StillListed(cfg, r, key.version))
                ==> Kept(s, s', key))
            && (key in s'.store ==>
                  || (Kept(s, s', key) && Spares(cfg, items, 0, stop, host, key)
                      && (OfHost(key, host) ==> StillListed(cfg, r, key.version)))
                  || exists j: nat :: LeavesEntry(cfg, items, j, stop, host, r.now, key, s'.store[key]))
  {
    hide LeavesEntry, Spares, RunPass, StillListed, RoundItems, Stop;
    var sorted, items := SortNewestFirst(r.dns.records), RoundItems(cfg, r);
    var indexed := IndexRecords(cfg, s, host, sorted);
    StepsKeepIndexed(cfg, s, host, Item(Record(None, ""), Ok(Blank()), {}), Blank(), r.now, sorted);
    PassProcesses(cfg, indexed, host, cert, r.now, items, 0, None, None);
    ProcessedExact(cfg, indexed, host, r.now, items, 0, Stop(items, 0, cert, host), key);
    IndexingExact(cfg, s, host, r, key);
  }

  lemma IndexingExact(cfg: Config, s: CacheState, host: string, r: Round, key: CacheKey)
    requires r.dns.Found? && Indexed(s) && Lower(host) == host
    ensures var s1 := IndexRecords(cfg, s, host, SortNewestFirst(r.dns.records));
            && (key in s1.store <==> key in s.store && (OfHost(key, host) ==> StillListed(cfg, r, key.version)))
            && (key in s1.store ==> s1.store[key] == s.store[key])
  {
    hide StillListed;
    SetVersionsIsExact(s, host, ListedVersions(SortNewestFirst(r.dns.records)), key);
    if OfHost(key, host) {
      StillListedMeans(cfg, r, key.version);
    }
  }

  // ----- prefetch -----

  /** The records' versions are indexed first, which drops the versions they do not name. */
  lemma PrefetchExact(cfg: Config, s: CacheState, host: string, r: Round, key: CacheKey)
    requires r.dns.Found? && Indexed(s) && Lower(host) == host
    ensures var s' := Prefetch(cfg, s, host, r).0;
            var items := RoundItems(cfg, r);
            && Indexed(s')
            && (forall j: nat, entry :: LeavesEntry(cfg, items, j, |items|, host, r.now, key, entry) ==>
                  key in s'.store && s'.store[key] == entry)
            && (key in s.store && Spares(cfg, items, 0, |items|, host, key)
                && (OfHost(key, host) ==> StillListed(cfg, r, key.version))
                ==> Kept(s, s', key))
            && (key in s'.store ==>
                  || (Kept(s, s', key) && Spares(cfg, items, 0, |items|, host, key)
                      && (OfHost(key, host) ==> StillListed(cfg, r, key.version)))
                  || exists j: nat :: LeavesEntry(cfg, items, j, |items|, host, r.now, key, s'.store[key]))
  {
    hide LeavesEntry, Spares, PrefetchItems, StillListed, RoundItems, FetchAll;
    var sorted, items := SortNewestFirst(r.dns.records), RoundItems(cfg, r);
    var indexed := IndexRecords(cfg, s, host, sorted);
    StepsKeepIndexed(cfg, s, host, Item(Record(None, ""), Ok(Blank()), {}), Blank(), r.now, sorted);
    PrefetchEntry(cfg, s, host, r, key);
    PrefetchProcesses(cfg, indexed, host, r.now, items, 0, None, None);
    ProcessedExact(cfg, indexed, host, r.now, items, 0, |items|, key);
    IndexingExact(cfg, s, host, r, key);
  }

  /**
   * What a prefetch leaves answers: a prefetched badge that is evidence, neither overruled nor stored over
   * nor pushed out later in the prefetch, is found by the next cache scan within its lifetime.
   */
  lemma PrefetchAnswersScan(
    cfg: Config, s: CacheState, host: string, r: Round, j: nat, key: CacheKey, entry: CachedBadge, cert: CertIdentity, next: World)
    requires r.dns.Found? && Indexed(s) && Lower(host) == host
    requires LeavesEntry(cfg, RoundItems(cfg, r), j, |RoundItems(cfg, r)|, host, r.now, key, entry)
    requires ServerEvidence(entry.badge, cert, host)
    requires Within(r.now, next.scanAt, cfg.lifetimes.defaultTtl) && Within(r.now, next.scanAt, cfg.lifetimes.hardTtl)
    ensures var s' := Prefetch(cfg, s, host, r).0;
            VerifyBadge(cfg, s', host, cert, next).0 == s' && VerifyBadge(cfg, s', host, cert, next).1.IsSuccess()
  {
    hide Prefetch, ServerEvidence, RoundItems;
    var s' := Prefetch(cfg, s, host, r).0;
    PrefetchExact(cfg, s, host, r, key);
    assert key == FqdnVersion(host, key.version);
    assert FreshEntry(cfg, s', host, next.scanAt, key.version, entry.badge);
    ScanMeans(cfg, s', host, cert, next.scanAt);
  }

  /** A prefetch that found no connectable badge reports the DNS answer, the fold of the failures, or an invalid response. */
  lemma PrefetchReports(cfg: Config, s: CacheState, host: string, r: Round)
    ensures var result := Prefetch(cfg, s, host, r).1;
            match r.dns
            case Absent => result == Err(DnsLookup(Dane.NotFound))
            case Failed(e) => result == Err(DnsLookup(e))
            case Found(_) =>
              (forall d: nat :: !FirstConnectable(RoundItems(cfg, r), d)) ==>
                result.Err? && result.error.TransparencyLog?
                && if Failures(RoundItems(cfg, r)) == [] then result.error.tlog == InvalidResponse
                   else Reported(Failures(RoundItems(cfg, r)), result.error.tlog)
  {
    if r.dns.Found? {
      hide FirstConnectable, RoundItems, Failures, Reported;
      var items := RoundItems(cfg, r);
      var indexed := IndexRecords(cfg, s, host, SortNewestFirst(r.dns.records));
      assert items[0..] == items && items[..0] == [] && items[..|items|] == items;
      PrefetchChoice(cfg, indexed, host, r.now, items, 0, None, None);
      NoFailures(items);
      FoldFromStart(items, 0);
      if Failures(items) != [] {
        FoldReports(Failures(items));
      }
    }
  }

  lemma NoFailures(items: seq<Item>)
    ensures Failures(items[..0]) == [] && FoldErrors([]) == None
  {}
}
