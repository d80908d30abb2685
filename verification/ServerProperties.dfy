/** What one server verification guarantees about its outcome and about the cache it leaves. */
module ServerProperties {
  import opened Wrappers
  import opened Text
  import opened Names
  import opened Badges
  import opened BadgeCache
  import opened Outcomes
  import opened Records
  import opened BadgeRules
  import opened ServerVerifier
  import Dane

  // ----- which record decides a pass -----

  ghost predicate Decisive(item: Item, cert: CertIdentity, host: string) {
    item.result.Ok? && !ServerMismatch(item.result.value, cert)
  }

  /** One past the last record a pass processes. */
  ghost function Stop(items: seq<Item>, i: nat, cert: CertIdentity, host: string): (stop: nat)
    requires i <= |items|
    ensures i <= stop <= |items|
    decreases |items| - i
  {
    if i == |items| then i else if Decisive(items[i], cert, host) then i + 1 else Stop(items, i + 1, cert, host)
  }

  function Failures(items: seq<Item>): seq<TlogError> {
    if items == [] then []
    else
      var n := |items| - 1;
      Failures(items[..n]) + if items[n].result.Err? then [items[n].result.error] else []
  }

  ghost predicate AnyFetched(items: seq<Item>) {
    exists i :: 0 <= i < |items| && items[i].result.Ok?
  }

  /**
   * First decisive record wins: a pass ends with the outcome of the first fetched badge that is not a
   * fingerprint mismatch; without one it reports a mismatch exactly when some badge was fetched, and
   * the fold of all the failures.
   */
  lemma FirstDecisiveWins(
    cfg: Config, s: CacheState, host: string, cert: CertIdentity, now: nat, items: seq<Item>, d: nat)
    requires d <= |items| && (forall i :: 0 <= i < d ==> !Decisive(items[i], cert, host))
    requires d < |items| ==> Decisive(items[d], cert, host)
    ensures var end := RunPass(cfg, s, host, cert, now, items, 0, None, None).1;
            if d < |items| then end == Decided(VerifyServerBadge(items[d].result.value, cert, host))
            else end.Exhausted? && (end.mismatch.Some? <==> AnyFetched(items)) && end.error == FoldErrors(Failures(items))
  {
    PassFrom(cfg, s, host, cert, now, items, 0, d, None, None);
    FoldFromStart(items, 0);
    assert items[..0] == [] && items[..|items|] == items;
  }

  /** The errors a pass records from record `i` on. */
  function FoldFrom(items: seq<Item>, i: nat, error: Option<AnsError>): Option<AnsError>
    requires i <= |items|
    decreases |items| - i
  {
    if i == |items| then error
    else FoldFrom(items, i + 1, if items[i].result.Err? then RecordTlogError(error, items[i].result.error) else error)
  }

  lemma {:induction false} FoldFromStart(items: seq<Item>, i: nat)
    requires i <= |items|
    ensures FoldFrom(items, i, FoldErrors(Failures(items[..i]))) == FoldErrors(Failures(items[..|items|]))
    decreases |items| - i
  {
    if i < |items| {
      FoldFromStart(items, i + 1);
      assert items[..i + 1][..i] == items[..i];
      if items[i].result.Err? {
        var errors := Failures(items[..i]);
        assert (errors + [items[i].result.error])[..|errors|] == errors;
      } else {
        assert Failures(items[..i]) + [] == Failures(items[..i]);
      }
    }
  }

  lemma {:induction false} PassFrom(
    cfg: Config, s: CacheState, host: string, cert: CertIdentity, now: nat, items: seq<Item>, i: nat, d: nat,
    mismatch: Option<Outcome>, error: Option<AnsError>)
    requires i <= d <= |items| && (forall k :: 0 <= k < d ==> !Decisive(items[k], cert, host))
    requires d < |items| ==> Decisive(items[d], cert, host)
    ensures var end := RunPass(cfg, s, host, cert, now, items, i, mismatch, error).1;
            if d < |items| then end == Decided(VerifyServerBadge(items[d].result.value, cert, host))
            else end.Exhausted? && end.error == FoldFrom(items, i, error)
                 && (end.mismatch.Some? <==> mismatch.Some? || exists k :: i <= k < |items| && items[k].result.Ok?)
    decreases |items| - i
  {
    if i < d {
      match items[i].result {
        case Err(e) =>
          var s1 := if e.IsUnavailable() then s else InvalidateFqdn(s, host);
          PassFrom(cfg, s1, host, cert, now, items, i + 1, d, mismatch, RecordTlogError(error, e));
        case Ok(badge) =>
          PassFrom(cfg, StoreFetched(cfg, s, host, items[i], badge, now), host, cert, now, items, i + 1, d,
                   Some(VerifyServerBadge(badge, cert, host)), error);
      }
    }
  }

  /** The refresh round is consulted only when every fetched badge mismatched; it is never consulted twice. */
  lemma RefreshOnlyAfterMismatch(
    cfg: Config, s: CacheState, host: string, cert: CertIdentity, first: Round, r1: Round, r2: Round)
    requires first.dns.Found?
    requires (exists i :: 0 <= i < |RoundItems(cfg, first)| && Decisive(RoundItems(cfg, first)[i], cert, host))
             || !AnyFetched(RoundItems(cfg, first))
    ensures VerifyRecords(cfg, s, host, cert, first, r1) == VerifyRecords(cfg, s, host, cert, first, r2)
  {
    var items := RoundItems(cfg, first);
    var d := FirstDecisive(items, cert, host, 0);
    FirstDecisiveWins(cfg, IndexRecords(cfg, s, host, SortNewestFirst(first.dns.records)), host, cert, first.now, items, d);
  }

  lemma FirstDecisive(items: seq<Item>, cert: CertIdentity, host: string, i: nat) returns (d: nat)
    requires i <= |items| && forall k :: 0 <= k < i ==> !Decisive(items[k], cert, host)
    ensures i <= d <= |items| && (forall k :: 0 <= k < d ==> !Decisive(items[k], cert, host))
    ensures d < |items| ==> Decisive(items[d], cert, host)
    decreases |items| - i
  {
    d := i;
    if i < |items| && !Decisive(items[i], cert, host) {
      d := FirstDecisive(items, cert, host, i + 1);
    }
  }

  // ----- where cache entries come from -----

  ghost predicate NoDeterminate(items: seq<Item>, from: nat, to: nat) {
    forall k :: from <= k < to && k < |items| ==> !items[k].Determinate()
  }

  /** A fetched badge belongs to the version its record names, or else to the one it names itself. */
  ghost predicate BelongsTo(record: Record, badge: Badge, version: Version) {
    if record.version.Some? then record.version == Some(version) else ParseVersion(badge.version) == Ok(version)
  }

  lemma StoredVersionMeans(record: Record, badge: Badge, version: Version)
    ensures StoredVersion(record, badge) == Some(version) <==> BelongsTo(record, badge, version)
    ensures StoredVersion(record, badge).Some? <==> exists v :: BelongsTo(record, badge, v)
  {
    if StoredVersion(record, badge).Some? {
      assert BelongsTo(record, badge, StoredVersion(record, badge).value);
    }
  }

  /** With a cache, no record processed in this span stored a badge under this version. */
  ghost predicate NotReplaced(cfg: Config, items: seq<Item>, from: nat, to: nat, version: Version) {
    cfg.caching ==>
      forall k :: from <= k < to && k < |items| && items[k].result.Ok? ==>
                    !BelongsTo(items[k].record, items[k].result.value, version)
  }

  /**
   * The entry is the badge of record `j`, stored now under the version that record or badge names, and
   * neither a determinate failure nor another badge of that version was processed after it.
   */
  ghost predicate StoredBy(
    cfg: Config, items: seq<Item>, j: nat, stop: nat, host: string, now: nat, key: CacheKey, entry: CachedBadge)
  {
    && j < stop && j < |items|
    && items[j].result == Ok(entry.badge)
    && entry.fetchedAt == now && entry.ttl == cfg.lifetimes.defaultTtl
    && OfHost(key, host) && BelongsTo(items[j].record, entry.badge, key.version)
    && NoDeterminate(items, j + 1, stop) && NotReplaced(cfg, items, j + 1, stop, key.version)
  }

  /** Some record processed before `stop` left this entry. */
  ghost predicate Left(
    cfg: Config, items: seq<Item>, stop: nat, host: string, now: nat, key: CacheKey, entry: CachedBadge)
  {
    exists j: nat :: StoredBy(cfg, items, j, stop, host, now, key, entry)
  }

  ghost predicate Kept(s: CacheState, s': CacheState, key: CacheKey) {
    key in s.store && key in s'.store && s'.store[key] == s.store[key]
  }

  /**
   * The entry under `key` was either there before, untouched, and then no determinate failure and no
   * badge of its version was processed if it belongs to the host; or the pass left it.
   */
  ghost predicate PassOrigin(
    cfg: Config, s: CacheState, s': CacheState, items: seq<Item>, i: nat, stop: nat, host: string, now: nat, key: CacheKey)
  {
    key in s'.store ==>
      || (Kept(s, s', key)
          && (OfHost(key, host) ==> NoDeterminate(items, i, stop) && NotReplaced(cfg, items, i, stop, key.version)))
      || exists j: nat :: i <= j && StoredBy(cfg, items, j, stop, host, now, key, s'.store[key])
  }

  lemma StepsKeepIndexed(cfg: Config, s: CacheState, host: string, item: Item, badge: Badge, now: nat, sorted: seq<Record>)
    requires Indexed(s)
    ensures Indexed(StoreFetched(cfg, s, host, item, badge, now))
    ensures Indexed(InvalidateFqdn(s, host))
    ensures Indexed(IndexRecords(cfg, s, host, sorted))
  {
    OpKeepsIndexed(s, InvalidateFqdnOp(host));
    OpKeepsIndexed(s, SetVersionIndexOp(host, ListedVersions(sorted)));
    var v := StoredVersion(item.record, badge);
    if v.Some? {
      OpKeepsIndexed(s, InsertOp(FqdnVersion(host, v.value), badge, now, cfg.lifetimes.defaultTtl, item.evicted));
    }
  }

  function Blank(): Badge {
    Badge(Unknown, "", [], None, [], None, "", "", "")
  }

  /** This fetched record is stored under this key. */
  ghost predicate Stores(cfg: Config, host: string, item: Item, key: CacheKey)
    requires item.result.Ok?
  {
    cfg.caching && OfHost(key, host) && BelongsTo(item.record, item.result.value, key.version)
  }

  lemma StoredEntry(cfg: Config, s: CacheState, host: string, item: Item, badge: Badge, now: nat, key: CacheKey)
    requires item.result == Ok(badge)
    ensures var s1 := StoreFetched(cfg, s, host, item, badge, now);
            key in s1.store ==>
              if Stores(cfg, host, item, key) then s1.store[key] == CachedBadge(badge, now, cfg.lifetimes.defaultTtl)
              else Kept(s, s1, key)
  {}

  /** The effect of processing records `i` to `stop` on the cache alone. */
  ghost function Processed(
    cfg: Config, s: CacheState, host: string, now: nat, items: seq<Item>, i: nat, stop: nat): CacheState
    requires i <= stop <= |items|
    decreases stop - i
  {
    if i == stop then s
    else
      match items[i].result
      case Err(e) => Processed(cfg, if e.IsUnavailable() then s else InvalidateFqdn(s, host), host, now, items, i + 1, stop)
      case Ok(badge) => Processed(cfg, StoreFetched(cfg, s, host, items[i], badge, now), host, now, items, i + 1, stop)
  }

  /** A server pass processes the records up to the one that decides it. */
  lemma {:induction false} PassProcesses(
    cfg: Config, s: CacheState, host: string, cert: CertIdentity, now: nat, items: seq<Item>, i: nat,
    mismatch: Option<Outcome>, error: Option<AnsError>)
    requires i <= |items|
    ensures RunPass(cfg, s, host, cert, now, items, i, mismatch, error).0
            == Processed(cfg, s, host, now, items, i, Stop(items, i, cert, host))
    decreases |items| - i
  {
    hide VerifyServerBadge, ServerMismatch, StoreFetched;
    if i < |items| {
      match items[i].result {
        case Err(e) =>
          var s1 := if e.IsUnavailable() then s else InvalidateFqdn(s, host);
          PassProcesses(cfg, s1, host, cert, now, items, i + 1, mismatch, RecordTlogError(error, e));
        case Ok(badge) =>
          ServerVerdictKinds(badge, cert, host);
          PassProcesses(cfg, StoreFetched(cfg, s, host, items[i], badge, now), host, cert, now, items, i + 1,
                        Some(VerifyServerBadge(badge, cert, host)), error);
      }
    }
  }

  /** A prefetch processes every record. */
  lemma {:induction false} PrefetchProcesses(
    cfg: Config, s: CacheState, host: string, now: nat, items: seq<Item>, i: nat,
    preferred: Option<Badge>, error: Option<AnsError>)
    requires i <= |items|
    ensures PrefetchItems(cfg, s, host, now, items, i, preferred, error).0
            == Processed(cfg, s, host, now, items, i, |items|)
    decreases |items| - i
  {
    hide StoreFetched;
    if i < |items| {
      match items[i].result {
        case Err(e) =>
          var s1 := if e.IsUnavailable() then s else InvalidateFqdn(s, host);
          PrefetchProcesses(cfg, s1, host, now, items, i + 1, preferred, RecordTlogError(error, e));
        case Ok(badge) =>
          var choice := if preferred.None? && badge.status.ValidForConnection() then Some(badge) else preferred;
          PrefetchProcesses(cfg, StoreFetched(cfg, s, host, items[i], badge, now), host, now, items, i + 1, choice, error);
      }
    }
  }

  // ----- which entries are left -----

  /** Storing this record's badge pushes the key out. */
  ghost predicate PushesOut(cfg: Config, item: Item, key: CacheKey) {
    && cfg.caching && item.result.Ok? && key in item.evicted
    && exists version :: BelongsTo(item.record, item.result.value, version)
  }

  ghost predicate NotPushedOut(cfg: Config, items: seq<Item>, from: nat, to: nat, key: CacheKey) {
    forall k :: from <= k < to && k < |items| ==> !PushesOut(cfg, items[k], key)
  }

  /** Record `j` stored the entry, and nothing up to `stop` purged it, stored over it or pushed it out. */
  ghost predicate LeavesEntry(
    cfg: Config, items: seq<Item>, j: nat, stop: nat, host: string, now: nat, key: CacheKey, entry: CachedBadge)
  {
    cfg.caching && StoredBy(cfg, items, j, stop, host, now, key, entry) && NotPushedOut(cfg, items, j, stop, key)
  }

  /** No record from `i` to `stop` purged, stored over or pushed out the key. */
  ghost predicate Spares(cfg: Config, items: seq<Item>, i: nat, stop: nat, host: string, key: CacheKey) {
    && (OfHost(key, host) ==> NoDeterminate(items, i, stop) && NotReplaced(cfg, items, i, stop, key.version))
    && NotPushedOut(cfg, items, i, stop, key)
  }

  lemma StoringExact(cfg: Config, s: CacheState, host: string, item: Item, badge: Badge, now: nat, key: CacheKey)
    requires item.result == Ok(badge)
    ensures var s1 := StoreFetched(cfg, s, host, item, badge, now);
            && (key in s1.store <==> (key in s.store || Stores(cfg, host, item, key)) && !PushesOut(cfg, item, key))
            && (key in s1.store ==>
                  s1.store[key] == if Stores(cfg, host, item, key) then CachedBadge(badge, now, cfg.lifetimes.defaultTtl)
                                   else s.store[key])
  {
    StoredVersionMeans(item.record, badge, if OfHost(key, host) then key.version else Version(0, 0, 0));
    if Stores(cfg, host, item, key) {
      assert key == FqdnVersion(host, key.version);
    }
  }

  lemma PurgingExact(s: CacheState, host: string, item: Item, key: CacheKey)
    requires item.result.Err? && Indexed(s) && Lower(host) == host
    ensures var s1 := if item.result.error.IsUnavailable() then s else InvalidateFqdn(s, host);
            && Indexed(s1)
            && (key in s1.store <==> key in s.store && !(OfHost(key, host) && item.Determinate()))
            && (key in s1.store ==> s1.store[key] == s.store[key])
  {
    LogErrorsSplit(item.result.error);
    OpKeepsIndexed(s, InvalidateFqdnOp(host));
    InvalidationIsExact(s, host, key);
  }

  /** The three facts that determine the cache after processing: what is left stays, what is spared stays, nothing else does. */
  lemma {:induction false} ProcessedExact(
    cfg: Config, s: CacheState, host: string, now: nat, items: seq<Item>, i: nat, stop: nat, key: CacheKey)
    requires i <= stop <= |items| && Indexed(s) && Lower(host) == host
    ensures var s' := Processed(cfg, s, host, now, items, i, stop);
            && Indexed(s')
            && (forall j: nat, entry :: i <= j && LeavesEntry(cfg, items, j, stop, host, now, key, entry) ==>
                  key in s'.store && s'.store[key] == entry)
            && (key in s.store && Spares(cfg, items, i, stop, host, key) ==> Kept(s, s', key))
            && (key in s'.store ==>
                  || (Kept(s, s', key) && Spares(cfg, items, i, stop, host, key))
                  || exists j: nat :: i <= j && LeavesEntry(cfg, items, j, stop, host, now, key, s'.store[key]))
    decreases stop - i
  {
    if i < stop {
      hide StoreFetched, InvalidateFqdn, Stores, PushesOut, LogAnswered, LeavesEntry, Spares;
      match items[i].result {
        case Err(e) =>
          var s1 := if e.IsUnavailable() then s else InvalidateFqdn(s, host);
          PurgingExact(s, host, items[i], key);
          ProcessedExact(cfg, s1, host, now, items, i + 1, stop, key);
          FailureStep(cfg, items, i, stop, host, now, key);
        case Ok(badge) =>
          var s1 := StoreFetched(cfg, s, host, items[i], badge, now);
          StepsKeepIndexed(cfg, s, host, items[i], badge, now, []);
          StoringExact(cfg, s, host, items[i], badge, now, key);
          ProcessedExact(cfg, s1, host, now, items, i + 1, stop, key);
          FetchStep(cfg, items, i, stop, host, now, key);
          var stored := CachedBadge(badge, now, cfg.lifetimes.defaultTtl);
          assert LeavesEntry(cfg, items, i, stop, host, now, key, stored)
                 <==> Stores(cfg, host, items[i], key) && !PushesOut(cfg, items[i], key)
                      && Spares(cfg, items, i + 1, stop, host, key);
      }
    }
  }

  lemma FailureStep(cfg: Config, items: seq<Item>, i: nat, stop: nat, host: string, now: nat, key: CacheKey)
    requires i < stop <= |items| && items[i].result.Err?
    ensures Spares(cfg, items, i, stop, host, key)
            <==> Spares(cfg, items, i + 1, stop, host, key) && !(OfHost(key, host) && items[i].Determinate())
    ensures forall entry :: !LeavesEntry(cfg, items, i, stop, host, now, key, entry)
  {}

  lemma FetchStep(cfg: Config, items: seq<Item>, i: nat, stop: nat, host: string, now: nat, key: CacheKey)
    requires i < stop <= |items| && items[i].result.Ok?
    ensures Spares(cfg, items, i, stop, host, key)
            <==> Spares(cfg, items, i + 1, stop, host, key)
                 && !Stores(cfg, host, items[i], key) && !PushesOut(cfg, items[i], key)
    ensures forall entry :: LeavesEntry(cfg, items, i, stop, host, now, key, entry)
              <==> Stores(cfg, host, items[i], key) && !PushesOut(cfg, items[i], key)
                   && Spares(cfg, items, i + 1, stop, host, key)
                   && entry == CachedBadge(items[i].result.value, now, cfg.lifetimes.defaultTtl)
  {
    assert NotPushedOut(cfg, items, i, stop, key)
           <==> NotPushedOut(cfg, items, i + 1, stop, key) && !PushesOut(cfg, items[i], key);
  }

  /** A pass leaves no entry of its host that is older than the last determinate failure it processed. */
  lemma PassEntry(
    cfg: Config, s: CacheState, host: string, cert: CertIdentity, now: nat, items: seq<Item>, i: nat,
    mismatch: Option<Outcome>, error: Option<AnsError>, key: CacheKey)
    requires i <= |items| && Indexed(s) && Lower(host) == host
    ensures var s' := RunPass(cfg, s, host, cert, now, items, i, mismatch, error).0;
            var stop := Stop(items, i, cert, host);
            Indexed(s') && PassOrigin(cfg, s, s', items, i, stop, host, now, key)
  {
    hide RunPass, Processed, StoredBy, NoDeterminate, NotReplaced, Stop;
    PassProcesses(cfg, s, host, cert, now, items, i, mismatch, error);
    ProcessedExact(cfg, s, host, now, items, i, Stop(items, i, cert, host), key);
  }

  // ----- a whole verification -----

  /** `badge` is the log's answer, at time `at`, for some record of this round that passed every fetch check. */
  ghost predicate FetchedIn(cfg: Config, r: Round, badge: Badge, at: nat) {
    r.dns.Found? && at == r.now && exists j :: 0 <= j < |RoundItems(cfg, r)| && RoundItems(cfg, r)[j].result == Ok(badge)
  }

  /** Fetching means an HTTPS URL on a trusted host and an answer with a known status. */
  lemma FetchedFromTrustedLog(cfg: Config, r: Round, badge: Badge, at: nat)
    requires FetchedIn(cfg, r, badge, at)
    ensures !badge.status.Unknown?
    ensures exists record, k :: record in r.dns.records && TrustedUrl(cfg, record.url) && r.fetch(k).result == Ok(badge)
  {
    var sorted := SortNewestFirst(r.dns.records);
    var j :| 0 <= j < |RoundItems(cfg, r)| && RoundItems(cfg, r)[j].result == Ok(badge);
    FetchedMeans(cfg, sorted[j].url, r.fetch(j).result, badge);
    VersionOrdersAreTotal();
    SortIsStable(r.dns.records, NewestFirst, None);
    assert sorted[j] in multiset(sorted);
    assert sorted[j] in r.dns.records && r.fetch(j).result == Ok(badge);
  }

  ghost predicate AllMismatch(items: seq<Item>, cert: CertIdentity, host: string) {
    AnyFetched(items) && forall i :: 0 <= i < |items| ==> !Decisive(items[i], cert, host)
  }

  /** The first lookup ended in a way that must leave no earlier badge of the host behind. */
  ghost predicate Purges(cfg: Config, s: CacheState, host: string, cert: CertIdentity, w: World) {
    && ScanCache(cfg, s, host, cert, w.scanAt).None?
    && match w.first.dns {
         case Absent => true
         case Failed(e) => Dane.DnsAnswered(e)
         case Found(_) => RecordsPurge(cfg, w.first, host, cert)
       }
  }

  /**
   * The entry was there before; `purged` says that no earlier entry of the host may remain, and `stored`
   * that a new one was put under this key.
   */
  ghost predicate Untouched(s: CacheState, s': CacheState, host: string, purged: bool, stored: bool, key: CacheKey) {
    Kept(s, s', key) && !stored && (OfHost(key, host) ==> !purged)
  }

  /** The entry was left by a pass over this round: fetched, stored, and not overruled by a later failure. */
  ghost predicate RoundLeft(cfg: Config, r: Round, host: string, cert: CertIdentity, key: CacheKey, entry: CachedBadge) {
    && r.dns.Found?
    && var items := RoundItems(cfg, r);
    Left(cfg, items, Stop(items, 0, cert, host), host, r.now, key, entry)
  }

  ghost predicate RoundStores(cfg: Config, r: Round, host: string, cert: CertIdentity, key: CacheKey) {
    cfg.caching && exists entry :: RoundLeft(cfg, r, host, cert, key, entry)
  }

  lemma PassOverEntry(cfg: Config, s: CacheState, host: string, cert: CertIdentity, r: Round, key: CacheKey)
    requires r.dns.Found? && Indexed(s) && Lower(host) == host
    ensures var s' := PassOver(cfg, s, host, cert, r).0;
            var items := RoundItems(cfg, r);
            && Indexed(s')
            && (key in s'.store ==>
                  || Untouched(s, s', host, !NoDeterminate(items, 0, Stop(items, 0, cert, host)),
                               RoundStores(cfg, r, host, cert, key), key)
                  || RoundLeft(cfg, r, host, cert, key, s'.store[key]))
  {
    var sorted := SortNewestFirst(r.dns.records);
    var indexed := IndexRecords(cfg, s, host, sorted);
    var items := RoundItems(cfg, r);
    StepsKeepIndexed(cfg, s, host, Item(Record(None, ""), Ok(Blank()), {}), Blank(), r.now, sorted);
    assert key in indexed.store ==> Kept(s, indexed, key);
    PassEntry(cfg, indexed, host, cert, r.now, items, 0, None, None, key);
  }

  lemma LeftWasFetched(cfg: Config, r: Round, host: string, cert: CertIdentity, key: CacheKey, entry: CachedBadge)
    requires RoundLeft(cfg, r, host, cert, key, entry)
    ensures FetchedIn(cfg, r, entry.badge, entry.fetchedAt) && entry.ttl == cfg.lifetimes.defaultTtl
  {
    var items := RoundItems(cfg, r);
    var j: nat :| StoredBy(cfg, items, j, Stop(items, 0, cert, host), host, r.now, key, entry);
    assert items[j].result == Ok(entry.badge);
  }

  /** Some record names this version. */
  ghost predicate NamedBy(records: seq<Record>, version: Version) {
    exists record :: record in records && record.version == Some(version)
  }

  lemma {:induction false} ListedInOrder(sorted: seq<Record>, version: Version)
    ensures version in ListedVersions(sorted) <==> NamedBy(sorted, version)
  {
    if sorted != [] {
      ListedInOrder(sorted[1..], version);
      assert sorted == [sorted[0]] + sorted[1..];
    }
  }

  lemma ListedMeans(records: seq<Record>, version: Version)
    ensures version in ListedVersions(SortNewestFirst(records)) <==> NamedBy(records, version)
  {
    ListedInOrder(SortNewestFirst(records), version);
    SortedHasSameRecords(records);
  }

  /**
   * Versions no longer published cannot be reused: after a pass over records that name versions, an
   * entry of the host under any other version was fetched by this very pass.
   */
  lemma UnpublishedVersionsAreDropped(
    cfg: Config, s: CacheState, host: string, cert: CertIdentity, r: Round, version: Version)
    requires r.dns.Found? && cfg.caching && Indexed(s) && Lower(host) == host
    requires (exists v :: NamedBy(r.dns.records, v)) && !NamedBy(r.dns.records, version)
    ensures var s' := PassOver(cfg, s, host, cert, r).0;
            var key := FqdnVersion(host, version);
            key in s'.store ==>
              RoundLeft(cfg, r, host, cert, key, s'.store[key])
              && FetchedIn(cfg, r, s'.store[key].badge, s'.store[key].fetchedAt)
  {
    var sorted, key := SortNewestFirst(r.dns.records), FqdnVersion(host, version);
    var v :| NamedBy(r.dns.records, v);
    ListedMeans(r.dns.records, v);
    ListedMeans(r.dns.records, version);
    var indexed := IndexRecords(cfg, s, host, sorted);
    StepsKeepIndexed(cfg, s, host, Item(Record(None, ""), Ok(Blank()), {}), Blank(), r.now, sorted);
    assert key !in indexed.store;
    PassEntry(cfg, indexed, host, cert, r.now, RoundItems(cfg, r), 0, None, None, key);
    var s' := PassOver(cfg, s, host, cert, r).0;
    if key in s'.store {
      LeftWasFetched(cfg, r, host, cert, key, s'.store[key]);
    }
  }

  lemma AfterErrorEntry(
    cfg: Config, s: CacheState, error: AnsError, host: string, cert: CertIdentity, now: nat, key: CacheKey)
    requires Indexed(s)
    ensures var s' := AfterAnsError(cfg, s, error, host, cert, now).0;
            Indexed(s') && (key in s'.store ==> Kept(s, s', key))
  {
    OpKeepsIndexed(s, InvalidateFqdnOp(host));
  }

  lemma RefreshEntry(cfg: Config, s: CacheState, host: string, cert: CertIdentity, r: Round, key: CacheKey)
    requires Indexed(s) && Lower(host) == host
    ensures var s' := Refresh(cfg, s, host, cert, r).0;
            && Indexed(s')
            && (key in s'.store ==>
                  || Untouched(s, s', host, true, RoundStores(cfg, r, host, cert, key), key)
                  || RoundLeft(cfg, r, host, cert, key, s'.store[key]))
  {
    hide PassOver, AfterAnsError, InvalidateFqdn, Left, Stop, NoDeterminate, RoundItems;
    var purged := InvalidateFqdn(s, host);
    OpKeepsIndexed(s, InvalidateFqdnOp(host));
    InvalidationIsExact(s, host, key);
    if r.dns.Found? {
      PassOverEntry(cfg, purged, host, cert, r, key);
      var (s1, end) := PassOver(cfg, purged, host, cert, r);
      if end.Exhausted? && end.error.Some? {
        AfterErrorEntry(cfg, s1, end.error.value, host, cert, r.now, key);
      }
    }
  }

  lemma ExhaustedMeans(cfg: Config, s: CacheState, host: string, cert: CertIdentity, r: Round)
    requires r.dns.Found?
    ensures var end := PassOver(cfg, s, host, cert, r).1;
            var items := RoundItems(cfg, r);
            (end.Exhausted? && end.mismatch.Some? <==> AllMismatch(items, cert, host))
  {
    var items := RoundItems(cfg, r);
    var indexed := IndexRecords(cfg, s, host, SortNewestFirst(r.dns.records));
    var d := FirstDecisive(items, cert, host, 0);
    FirstDecisiveWins(cfg, indexed, host, cert, r.now, items, d);
  }

  /** After an all-mismatch first round only the refresh can have left anything of the host. */
  ghost predicate RecordsLeft(
    cfg: Config, r1: Round, r2: Round, host: string, cert: CertIdentity, key: CacheKey, entry: CachedBadge)
    requires r1.dns.Found?
  {
    if AllMismatch(RoundItems(cfg, r1), cert, host) then RoundLeft(cfg, r2, host, cert, key, entry)
    else RoundLeft(cfg, r1, host, cert, key, entry)
  }

  ghost predicate RecordsStore(cfg: Config, r1: Round, r2: Round, host: string, cert: CertIdentity, key: CacheKey)
    requires r1.dns.Found?
  {
    cfg.caching && exists entry :: RecordsLeft(cfg, r1, r2, host, cert, key, entry)
  }

  ghost predicate RecordsPurge(cfg: Config, r: Round, host: string, cert: CertIdentity)
    requires r.dns.Found?
  {
    var items := RoundItems(cfg, r);
    AllMismatch(items, cert, host) || !NoDeterminate(items, 0, Stop(items, 0, cert, host))
  }

  lemma RecordsEntry(cfg: Config, s: CacheState, host: string, cert: CertIdentity, r1: Round, r2: Round, key: CacheKey)
    requires r1.dns.Found? && Indexed(s) && Lower(host) == host
    ensures var s' := VerifyRecords(cfg, s, host, cert, r1, r2).0;
            && Indexed(s')
            && (key in s'.store ==>
                  || Untouched(s, s', host, RecordsPurge(cfg, r1, host, cert), RecordsStore(cfg, r1, r2, host, cert, key), key)
                  || RecordsLeft(cfg, r1, r2, host, cert, key, s'.store[key]))
  {
    hide AfterAnsError, Refresh, PassOver, NoDeterminate;
    ExhaustedMeans(cfg, s, host, cert, r1);
    PassOverEntry(cfg, s, host, cert, r1, key);
    var (s1, end) := PassOver(cfg, s, host, cert, r1);
    if end.Exhausted? && end.mismatch.Some? {
      RefreshEntry(cfg, s1, host, cert, r2, key);
    } else if end.Exhausted? && end.error.Some? {
      AfterErrorEntry(cfg, s1, end.error.value, host, cert, r1.now, key);
    }
  }

  /** What a whole verification can have left in the cache under `key`. */
  ghost predicate ServerLeft(
    cfg: Config, s: CacheState, host: string, cert: CertIdentity, w: World, key: CacheKey, entry: CachedBadge)
  {
    && ScanCache(cfg, s, host, cert, w.scanAt).None? && w.first.dns.Found?
    && RecordsLeft(cfg, w.first, w.refresh, host, cert, key, entry)
  }

  ghost predicate ServerStores(cfg: Config, s: CacheState, host: string, cert: CertIdentity, w: World, key: CacheKey) {
    cfg.caching && exists entry :: ServerLeft(cfg, s, host, cert, w, key, entry)
  }

  /**
   * Every cache entry after a verification is an earlier one, neither purged nor stored over, or a badge
   * it fetched and did not overrule; after a determinate answer no earlier entry of the host is left, and after an
   * all-mismatch first round nothing that round fetched.
   */
  lemma ServerEntry(cfg: Config, s: CacheState, host: string, cert: CertIdentity, w: World, key: CacheKey)
    requires Indexed(s) && Lower(host) == host
    ensures var s' := VerifyBadge(cfg, s, host, cert, w).0;
            && Indexed(s')
            && (key in s'.store ==>
                  || Untouched(s, s', host, Purges(cfg, s, host, cert, w), ServerStores(cfg, s, host, cert, w, key), key)
                  || ServerLeft(cfg, s, host, cert, w, key, s'.store[key]))
  {
    hide ScanCache, StaleSuccess, VerifyRecords, RecordsLeft, NoDeterminate, RoundItems;
    if ScanCache(cfg, s, host, cert, w.scanAt).None? {
      if w.first.dns.Found? {
        RecordsEntry(cfg, s, host, cert, w.first, w.refresh, key);
      } else {
        OpKeepsIndexed(s, InvalidateFqdnOp(host));
        InvalidatedHostIsGone(s, host);
      }
    }
  }
}
