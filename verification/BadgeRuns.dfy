/** Whole runs: servers and clients verified and prefetched in any order over one shared badge cache. */
module BadgeRuns {
  import opened Wrappers
  import opened Text
  import opened Names
  import opened Badges
  import opened BadgeCache
  import opened Outcomes
  import opened Records
  import opened BadgeRules
  import opened ServerVerifier
  import opened ServerProperties
  import opened ServerOutcomes
  import opened ClientProperties
  import Client = ClientVerifier
  import Dane

  /**
   * One step of a run. Each verifier has its own settings: verifiers with different trusted hosts and
   * policies may share the cache, and one without a cache takes no part in it. The store may also drop
   * any entries, or be emptied, between verifications.
   */
  datatype Event =
    | ServerCheck(cfg: Config, host: string, cert: CertIdentity, world: World)
    | PrefetchOf(cfg: Config, host: string, round: Round)
    | ClientCheck(cfg: Config, cert: CertIdentity, clientWorld: Client.ClientWorld)
    | Evicted(gone: set<CacheKey>)
    | Cleared
  {
    predicate Verifies() {
      ServerCheck? || PrefetchOf? || ClientCheck?
    }

    /** The event is by a verifier that uses the shared cache. */
    predicate Shares() {
      Verifies() && cfg.caching
    }
  }

  function Step(s: CacheState, e: Event): CacheState {
    if e.Verifies() && !e.cfg.caching then s
    else
      match e
      case ServerCheck(cfg, host, cert, w) => VerifyBadge(cfg, s, host, cert, w).0
      case PrefetchOf(cfg, host, r) => Prefetch(cfg, s, host, r).0
      case ClientCheck(cfg, cert, w) => Client.Verify(cfg, s, cert, w).0
      case Evicted(gone) => Evict(s, gone)
      case Cleared => EMPTY
  }

  function StateAt(events: seq<Event>, n: nat): CacheState
    requires n <= |events|
  {
    if n == 0 then EMPTY else Step(StateAt(events, n - 1), events[n - 1])
  }

  /** The cache as a verifier sees it. */
  function View(cfg: Config, s: CacheState): CacheState {
    if cfg.caching then s else EMPTY
  }

  ghost function ServerOutcome(events: seq<Event>, i: nat): Outcome
    requires i < |events| && events[i].ServerCheck?
  {
    var e := events[i];
    Verify(e.cfg, View(e.cfg, StateAt(events, i)), e.host, e.cert, e.world).1
  }

  function ClientOutcome(events: seq<Event>, i: nat): Outcome
    requires i < |events| && events[i].ClientCheck?
  {
    var e := events[i];
    Client.Verify(e.cfg, View(e.cfg, StateAt(events, i)), e.cert, e.clientWorld).1
  }

  /**
   * Hosts given by the application are names that `Fqdn::new` produced, and verifiers that share the
   * cache see its one set of lifetimes.
   */
  ghost predicate Orderly(events: seq<Event>, lifetimes: CacheConfig) {
    forall i :: 0 <= i < |events| ==> OrderlyEvent(events[i], lifetimes)
  }

  ghost predicate OrderlyEvent(e: Event, lifetimes: CacheConfig) {
    && (e.ServerCheck? || e.PrefetchOf? ==> CanonicalHost(e.host))
    && (e.Shares() ==> e.cfg.lifetimes == lifetimes)
  }

  // ----- what an event stores and purges -----

  /** Run in cache state `s`, the event can have left `badge`, fetched at `at`, under `key`. */
  ghost predicate Stores(s: CacheState, e: Event, key: CacheKey, badge: Badge, at: nat) {
    && e.Shares()
    && var entry := CachedBadge(badge, at, e.cfg.lifetimes.defaultTtl);
    match e
    case ServerCheck(cfg, host, cert, w) => ServerLeft(cfg, s, host, cert, w, key, entry)
    case PrefetchOf(cfg, host, r) => PrefetchLeft(cfg, r, host, key, entry)
    case ClientCheck(cfg, cert, w) =>
      && Client.Claims(cert).Ok?
      && var (host, name) := Client.Claims(cert).value;
      ClientLeft(cfg, s, host, name, cert, w, key, entry)
    case _ => false
  }

  /** Run in cache state `s`, the event puts some badge under `key`. */
  ghost predicate StoresSome(s: CacheState, e: Event, key: CacheKey) {
    exists badge, at: nat :: Stores(s, e, key, badge, at)
  }

  /** Run in cache state `s`, the event leaves no earlier entry under `key`. */
  ghost predicate PurgedBy(s: CacheState, e: Event, key: CacheKey) {
    match e
    case ServerCheck(cfg, host, cert, w) => cfg.caching && OfHost(key, host) && Purges(cfg, s, host, cert, w)
    case PrefetchOf(cfg, host, r) => cfg.caching && OfHost(key, host) && PrefetchPurges(cfg, r)
    case ClientCheck(cfg, cert, w) =>
      && cfg.caching && Client.Claims(cert).Ok?
      && var (host, name) := Client.Claims(cert).value;
      ClientPurges(cfg, s, host, name, cert, w, key)
    case Evicted(gone) => key in gone
    case Cleared => true
  }

  /** The log's answer for a record with this URL, in some round of the event, was this badge. */
  ghost predicate Answered(e: Event, url: string, badge: Badge) {
    match e
    case ServerCheck(cfg, _, _, w) => AnsweredIn(cfg, w.first, url, badge) || AnsweredIn(cfg, w.refresh, url, badge)
    case PrefetchOf(cfg, _, r) => AnsweredIn(cfg, r, url, badge)
    case ClientCheck(_, cert, w) =>
      && Client.Claims(cert).Ok?
      && var version := Client.Claims(cert).value.1.version;
      AnsweredTo(w.first, version, url, badge) || AnsweredTo(w.refresh, version, url, badge)
    case _ => false
  }

  ghost predicate AnsweredIn(cfg: Config, r: Round, url: string, badge: Badge) {
    && r.dns.Found?
    && var items := RoundItems(cfg, r);
    exists j: nat :: j < |items| && items[j].record.url == url && r.fetch(j).result == Ok(badge)
  }

  ghost predicate AnsweredTo(l: Client.Lookup, version: Version, url: string, badge: Badge) {
    && Client.Choose(l, version).Ok? && Client.Choose(l, version).value.Some?
    && Client.Choose(l, version).value.value.url == url && l.fetch.result == Ok(badge)
  }

  lemma LeftIsTrusted(
    cfg: Config, r: Round, items: seq<Item>, stop: nat, host: string, key: CacheKey, entry: CachedBadge) returns (url: string)
    requires r.dns.Found? && items == RoundItems(cfg, r) && Left(cfg, items, stop, host, r.now, key, entry)
    ensures TrustedUrl(cfg, url) && AnsweredIn(cfg, r, url, entry.badge) && !entry.badge.status.Unknown?
  {
    var j: nat :| StoredBy(cfg, items, j, stop, host, r.now, key, entry);
    url := items[j].record.url;
    FetchedMeans(cfg, url, r.fetch(j).result, entry.badge);
  }

  /** Whatever an event stores came from an HTTPS URL on a host its own verifier trusts, with a known status. */
  lemma StoredIsTrusted(s: CacheState, e: Event, key: CacheKey, badge: Badge, at: nat) returns (url: string)
    requires Stores(s, e, key, badge, at)
    ensures TrustedUrl(e.cfg, url) && Answered(e, url, badge) && !badge.status.Unknown?
  {
    var entry := CachedBadge(badge, at, e.cfg.lifetimes.defaultTtl);
    match e
    case ServerCheck(cfg, host, cert, w) =>
      var r := if AllMismatch(RoundItems(cfg, w.first), cert, host) then w.refresh else w.first;
      var items := RoundItems(cfg, r);
      url := LeftIsTrusted(cfg, r, items, Stop(items, 0, cert, host), host, key, entry);
    case PrefetchOf(cfg, host, r) =>
      var items := RoundItems(cfg, r);
      url := LeftIsTrusted(cfg, r, items, |items|, host, key, entry);
    case ClientCheck(cfg, cert, w) =>
      var (host, name) := Client.Claims(cert).value;
      var l := if Refreshed(cfg, s, host, name, cert, w) then w.refresh else w.first;
      url := Client.Choose(l, name.version).value.value.url;
  }

  /** The reader trusts whatever the fetcher trusts. */
  ghost predicate TrustsAllOf(reader: Config, fetcher: Config) {
    && reader.parseUrl == fetcher.parseUrl
    && (fetcher.trusted.Some? ==> reader.trusted.Some? && fetcher.trusted.value <= reader.trusted.value)
  }

  /** Across verifiers that share a cache the reader's trust holds as soon as it includes the fetcher's. */
  lemma TrustCarriesOver(reader: Config, s: CacheState, e: Event, key: CacheKey, badge: Badge, at: nat) returns (url: string)
    requires Stores(s, e, key, badge, at) && TrustsAllOf(reader, e.cfg)
    ensures TrustedUrl(reader, url) && Answered(e, url, badge)
  {
    url := StoredIsTrusted(s, e, key, badge, at);
  }

  // ----- provenance -----

  lemma StepEntry(s: CacheState, e: Event, lifetimes: CacheConfig, key: CacheKey)
    requires Indexed(s) && OrderlyEvent(e, lifetimes)
    ensures var s' := Step(s, e);
            && Indexed(s')
            && (key in s'.store ==>
                  || (Kept(s, s', key) && !PurgedBy(s, e, key) && !StoresSome(s, e, key))
                  || (s'.store[key].ttl == lifetimes.defaultTtl
                      && Stores(s, e, key, s'.store[key].badge, s'.store[key].fetchedAt)))
  {
    hide ServerLeft, PrefetchLeft, ClientLeft, Purges, PrefetchPurges, ClientPurges, VerifyBadge, Prefetch, Client.VerifyNamed;
    match e
    case ServerCheck(cfg, host, cert, w) =>
      ServerEntry(cfg, s, host, cert, w, key);
      ServerLeftTtl(cfg, s, host, cert, w, key);
    case PrefetchOf(cfg, host, r) =>
      PrefetchEntry(cfg, s, host, r, key);
      PrefetchLeftTtl(cfg, r, host, key);
    case ClientCheck(cfg, cert, w) =>
      if Client.Claims(cert).Ok? {
        var (host, name) := Client.Claims(cert).value;
        FqdnCanonical(cert.Fqdn().value);
        ClientEntry(cfg, s, host, name, cert, w, key);
        ClientLeftTtl(cfg, s, host, name, cert, w, key);
      }
    case Evicted(gone) => OpKeepsIndexed(s, EvictOp(gone));
    case Cleared =>
  }

  lemma ServerLeftTtl(cfg: Config, s: CacheState, host: string, cert: CertIdentity, w: World, key: CacheKey)
    ensures forall entry :: ServerLeft(cfg, s, host, cert, w, key, entry) ==> entry.ttl == cfg.lifetimes.defaultTtl
  {
    forall entry | ServerLeft(cfg, s, host, cert, w, key, entry) ensures entry.ttl == cfg.lifetimes.defaultTtl {
      if AllMismatch(RoundItems(cfg, w.first), cert, host) {
        LeftWasFetched(cfg, w.refresh, host, cert, key, entry);
      } else {
        LeftWasFetched(cfg, w.first, host, cert, key, entry);
      }
    }
  }

  lemma PrefetchLeftTtl(cfg: Config, r: Round, host: string, key: CacheKey)
    ensures forall entry :: PrefetchLeft(cfg, r, host, key, entry) ==> entry.ttl == cfg.lifetimes.defaultTtl
  {}

  lemma ClientLeftTtl(
    cfg: Config, s: CacheState, host: string, name: AnsName, cert: CertIdentity, w: Client.ClientWorld, key: CacheKey)
    ensures forall entry :: ClientLeft(cfg, s, host, name, cert, w, key, entry) ==> entry.ttl == cfg.lifetimes.defaultTtl
  {}

  lemma {:induction false} StatesStayIndexed(events: seq<Event>, lifetimes: CacheConfig, n: nat)
    requires Orderly(events, lifetimes) && n <= |events|
    ensures Indexed(StateAt(events, n))
  {
    if n > 0 {
      StatesStayIndexed(events, lifetimes, n - 1);
      StepEntry(StateAt(events, n - 1), events[n - 1], lifetimes, CacheKey.Url(""));
    }
  }

  ghost predicate PurgedAt(events: seq<Event>, k: nat, key: CacheKey) {
    k < |events| && PurgedBy(StateAt(events, k), events[k], key)
  }

  ghost predicate StoresAt(events: seq<Event>, k: nat, key: CacheKey, badge: Badge, at: nat) {
    k < |events| && Stores(StateAt(events, k), events[k], key, badge, at)
  }

  ghost predicate StoresSomeAt(events: seq<Event>, k: nat, key: CacheKey) {
    k < |events| && StoresSome(StateAt(events, k), events[k], key)
  }

  /** No event from `start` up to `stop` purged the key. */
  ghost predicate Unpurged(events: seq<Event>, start: nat, stop: nat, key: CacheKey) {
    stop <= start || (Unpurged(events, start, stop - 1, key) && !PurgedAt(events, stop - 1, key))
  }

  /** No event from `start` up to `stop` stored anything under `key`. */
  ghost predicate NothingStored(events: seq<Event>, start: nat, stop: nat, key: CacheKey) {
    stop <= start || (NothingStored(events, start, stop - 1, key) && !StoresSomeAt(events, stop - 1, key))
  }

  /** Event `m` stored the badge under `key`, and nothing between `m` and `n` purged it or stored over it. */
  ghost predicate CachedSince(events: seq<Event>, m: nat, n: nat, key: CacheKey, badge: Badge, at: nat) {
    m < n && StoresAt(events, m, key, badge, at) && Unpurged(events, m + 1, n, key) && NothingStored(events, m + 1, n, key)
  }

  lemma LastStepEntry(events: seq<Event>, lifetimes: CacheConfig, n: nat, key: CacheKey)
    requires Orderly(events, lifetimes) && n < |events| && key in StateAt(events, n + 1).store
    ensures var (s, s') := (StateAt(events, n), StateAt(events, n + 1));
            || (Kept(s, s', key) && !PurgedAt(events, n, key) && !StoresSomeAt(events, n, key))
            || (s'.store[key].ttl == lifetimes.defaultTtl && StoresSomeAt(events, n, key)
                && StoresAt(events, n, key, s'.store[key].badge, s'.store[key].fetchedAt))
  {
    hide Stores, PurgedBy;
    StatesStayIndexed(events, lifetimes, n);
    StepEntry(StateAt(events, n), events[n], lifetimes, key);
  }

  /**
   * Provenance of the cache: each entry is the last one stored under its key, by some earlier event that
   * did not itself overrule it, and no event since purged it or stored over it.
   */
  lemma {:induction false} EntryProvenance(events: seq<Event>, lifetimes: CacheConfig, n: nat, key: CacheKey)
    returns (m: nat)
    requires Orderly(events, lifetimes) && n <= |events| && key in StateAt(events, n).store
    ensures var entry := StateAt(events, n).store[key];
            entry.ttl == lifetimes.defaultTtl && CachedSince(events, m, n, key, entry.badge, entry.fetchedAt)
  {
    hide PurgedAt, StoresAt, StoresSomeAt, Step;
    m := n - 1;
    LastStepEntry(events, lifetimes, m, key);
    var s, s' := StateAt(events, m), StateAt(events, n);
    if Kept(s, s', key) && !PurgedAt(events, m, key) && !StoresSomeAt(events, m, key) {
      m := EntryProvenance(events, lifetimes, n - 1, key);
    }
  }

  // ----- what a success in a run rests on -----

  /**
   * The cached part of a success at event `i`: the badge is the last one stored under this key, no event
   * since purged it, and it is within the cache's lifetime or, in an outage under the reader's
   * fail-open policy, within the reader's staleness bound; and always within the cache's hard lifetime.
   */
  ghost predicate CachedEvidence(
    events: seq<Event>, i: nat, lifetimes: CacheConfig, policy: FailurePolicy, key: CacheKey, badge: Badge,
    scanAt: nat, outage: bool, errorAt: nat)
  {
    exists m: nat, at: nat ::
      && CachedSince(events, m, i, key, badge, at)
      && (|| (Within(at, scanAt, lifetimes.defaultTtl) && Within(at, scanAt, lifetimes.hardTtl))
          || (outage && policy.FailOpenWithCache?
              && Within(at, errorAt, policy.maxStaleness) && Within(at, errorAt, lifetimes.hardTtl)))
  }

  lemma EntryIsEvidence(
    events: seq<Event>, i: nat, lifetimes: CacheConfig, cfg: Config, key: CacheKey, badge: Badge,
    scanAt: nat, outage: bool, errorAt: nat)
    requires Orderly(events, lifetimes) && i <= |events| && (cfg.caching ==> cfg.lifetimes == lifetimes)
    requires var s := View(cfg, StateAt(events, i));
             FreshVersion(cfg, s, key, scanAt, badge) || (outage && StaleVersion(cfg, s, key, errorAt, badge))
    ensures CachedEvidence(events, i, lifetimes, cfg.policy, key, badge, scanAt, outage, errorAt)
  {
    hide StoresAt, Unpurged, NothingStored, Step;
    var m := EntryProvenance(events, lifetimes, i, key);
    assert CachedSince(events, m, i, key, badge, StateAt(events, i).store[key].fetchedAt);
  }

  /** Every server success in every run: evidence, provenance and age. */
  lemma ServerSuccessInRun(events: seq<Event>, lifetimes: CacheConfig, i: nat)
    requires Orderly(events, lifetimes) && i < |events| && events[i].ServerCheck?
    ensures var e, outcome := events[i], ServerOutcome(events, i);
            outcome.IsSuccess() ==>
              && outcome.Verified? && outcome.fingerprint == e.cert.fingerprint
              && ServerEvidence(outcome.badge, e.cert, e.host)
              && DanePassed(e.cfg, e.cert, e.world.tlsa)
              && (|| FetchedIn(e.cfg, e.world.first, outcome.badge, e.world.first.now)
                  || FetchedIn(e.cfg, e.world.refresh, outcome.badge, e.world.refresh.now)
                  || exists v :: CachedEvidence(
                       events, i, lifetimes, e.cfg.policy, FqdnVersion(e.host, v), outcome.badge,
                       e.world.scanAt, Outage(e.cfg, e.world.first), e.world.first.now))
  {
    hide CachedEvidence, VerifyBadge;
    var (cfg, host, cert, w) := (events[i].cfg, events[i].host, events[i].cert, events[i].world);
    var s := View(cfg, StateAt(events, i));
    StatesStayIndexed(events, lifetimes, i);
    var before := VerifyBadge(cfg, s, host, cert, w).1;
    DaneGate(cfg, cert, w.tlsa, before);
    ServerSuccess(cfg, s, host, cert, w);
    if before.IsSuccess() {
      var badge, outage := before.badge, Outage(cfg, w.first);
      if v :| FreshEntry(cfg, s, host, w.scanAt, v, badge) {
        EntryIsEvidence(events, i, lifetimes, cfg, FqdnVersion(host, v), badge, w.scanAt, outage, w.first.now);
      } else if v :| outage && StaleEntry(cfg, s, host, w.first.now, v, badge) {
        EntryIsEvidence(events, i, lifetimes, cfg, FqdnVersion(host, v), badge, w.scanAt, outage, w.first.now);
      }
    }
  }

  /** Every client success in every run; cached evidence is for the certificate's own version. */
  lemma ClientSuccessInRun(events: seq<Event>, lifetimes: CacheConfig, i: nat)
    requires Orderly(events, lifetimes) && i < |events| && events[i].ClientCheck?
    ensures var e, outcome := events[i], ClientOutcome(events, i);
            outcome.IsSuccess() ==>
              && Client.Claims(e.cert).Ok?
              && var (host, name) := Client.Claims(e.cert).value;
              && outcome.Verified? && outcome.fingerprint == e.cert.fingerprint
              && ClientEvidence(outcome.badge, e.cert, name)
              && (|| LookedUp(e.cfg, e.clientWorld.first, name.version, outcome.badge, e.clientWorld.first.now)
                  || LookedUp(e.cfg, e.clientWorld.refresh, name.version, outcome.badge, e.clientWorld.refresh.now)
                  || CachedEvidence(
                       events, i, lifetimes, e.cfg.policy, FqdnVersion(host, name.version), outcome.badge,
                       e.clientWorld.scanAt, ClientOutage(e.cfg, e.clientWorld.first, name.version), e.clientWorld.first.now))
  {
    hide CachedEvidence, Client.Verify;
    var (cfg, cert, w) := (events[i].cfg, events[i].cert, events[i].clientWorld);
    var s := View(cfg, StateAt(events, i));
    var outcome := Client.Verify(cfg, s, cert, w).1;
    ClientSuccess(cfg, s, cert, w);
    if outcome.IsSuccess() {
      var (host, name) := Client.Claims(cert).value;
      var key, outage := FqdnVersion(host, name.version), ClientOutage(cfg, w.first, name.version);
      if FreshVersion(cfg, s, key, w.scanAt, outcome.badge)
         || (outage && StaleVersion(cfg, s, key, w.first.now, outcome.badge)) {
        EntryIsEvidence(events, i, lifetimes, cfg, key, outcome.badge, w.scanAt, outage, w.first.now);
      }
    }
  }

  // ----- rejection is sticky -----

  /** Event `p` purged `key` and left nothing there, and neither did any event since. */
  ghost predicate GoneSince(events: seq<Event>, p: nat, i: nat, key: CacheKey) {
    p < i && PurgedAt(events, p, key) && NothingStored(events, p, i, key)
  }

  /** The same for every version of a host. */
  ghost predicate RejectedSince(events: seq<Event>, p: nat, i: nat, host: string) {
    forall v :: GoneSince(events, p, i, FqdnVersion(host, v))
  }

  lemma {:induction false} NothingStoredSpans(events: seq<Event>, p: nat, q: nat, i: nat, key: CacheKey)
    requires p <= q <= i
    ensures NothingStored(events, p, i, key) <==> NothingStored(events, p, q, key) && NothingStored(events, q, i, key)
    decreases i
  {
    hide StoresSomeAt;
    if q < i {
      NothingStoredSpans(events, p, q, i - 1, key);
    }
  }

  /** What is absent stays absent until some event stores it. */
  lemma {:induction false} AbsentStays(events: seq<Event>, lifetimes: CacheConfig, q: nat, i: nat, key: CacheKey)
    requires Orderly(events, lifetimes) && q <= i <= |events|
    requires key !in StateAt(events, q).store && NothingStored(events, q, i, key)
    ensures key !in StateAt(events, i).store
    decreases i
  {
    hide PurgedAt, StoresAt, StoresSomeAt, Step;
    if q < i {
      AbsentStays(events, lifetimes, q, i - 1, key);
      if key in StateAt(events, i).store {
        LastStepEntry(events, lifetimes, i - 1, key);
      }
    }
  }

  lemma PurgedIsGone(events: seq<Event>, lifetimes: CacheConfig, p: nat, i: nat, key: CacheKey)
    requires Orderly(events, lifetimes) && i <= |events| && GoneSince(events, p, i, key)
    ensures key !in StateAt(events, i).store
  {
    hide PurgedAt, StoresAt, StoresSomeAt, Step;
    NothingStoredSpans(events, p, p + 1, i, key);
    if key in StateAt(events, p + 1).store {
      LastStepEntry(events, lifetimes, p, key);
    }
    AbsentStays(events, lifetimes, p + 1, i, key);
  }

  /** With no entry of the host and nothing stored since, an outage cannot verify a server. */
  lemma OutageCannotVerifyEmptyHost(events: seq<Event>, lifetimes: CacheConfig, q: nat, i: nat)
    requires Orderly(events, lifetimes) && q <= i < |events| && events[i].ServerCheck?
    requires Outage(events[i].cfg, events[i].world.first)
    requires forall v {:trigger FqdnVersion(events[i].host, v)} ::
               FqdnVersion(events[i].host, v) !in StateAt(events, q).store
               && NothingStored(events, q, i, FqdnVersion(events[i].host, v))
    ensures !ServerOutcome(events, i).IsSuccess()
  {
    hide NothingStored, Step, VerifyBadge;
    var (cfg, host, cert, w) := (events[i].cfg, events[i].host, events[i].cert, events[i].world);
    var s := View(cfg, StateAt(events, i));
    forall v ensures FqdnVersion(host, v) !in s.store {
      AbsentStays(events, lifetimes, q, i, FqdnVersion(host, v));
    }
    StatesStayIndexed(events, lifetimes, i);
    OutageSucceedsIff(cfg, s, host, cert, w);
    DaneGate(cfg, cert, w.tlsa, VerifyBadge(cfg, s, host, cert, w).1);
  }

  /**
   * Determinate rejection is sticky: once an event purged the host without leaving anything for it, and
   * until something is stored for it again, a server verification that sees only outages cannot succeed.
   */
  lemma OutageCannotUndoServerRejection(events: seq<Event>, lifetimes: CacheConfig, p: nat, i: nat)
    requires Orderly(events, lifetimes) && i < |events| && events[i].ServerCheck?
    requires RejectedSince(events, p, i, events[i].host) && Outage(events[i].cfg, events[i].world.first)
    ensures !ServerOutcome(events, i).IsSuccess()
  {
    hide PurgedAt, NothingStored, Step;
    var host := events[i].host;
    assert GoneSince(events, p, i, FqdnVersion(host, Version(0, 0, 0)));
    forall v ensures FqdnVersion(host, v) !in StateAt(events, i).store {
      PurgedIsGone(events, lifetimes, p, i, FqdnVersion(host, v));
    }
    forall v ensures NothingStored(events, i, i, FqdnVersion(host, v)) {
      NothingInEmptySpan(events, i, FqdnVersion(host, v));
    }
    OutageCannotVerifyEmptyHost(events, lifetimes, i, i);
  }

  lemma NothingInEmptySpan(events: seq<Event>, i: nat, key: CacheKey)
    ensures NothingStored(events, i, i, key)
  {}

  /** A version purged alone is rejected alone: clients of that version cannot be verified by outages. */
  lemma OutageCannotUndoVersionRejection(
    events: seq<Event>, lifetimes: CacheConfig, p: nat, i: nat, host: string, name: AnsName)
    requires Orderly(events, lifetimes) && i < |events| && events[i].ClientCheck?
    requires Client.Claims(events[i].cert) == Ok((host, name)) && name.Valid()
    requires GoneSince(events, p, i, FqdnVersion(host, name.version))
    requires ClientOutage(events[i].cfg, events[i].clientWorld.first, name.version)
    ensures !ClientOutcome(events, i).IsSuccess()
  {
    hide GoneSince, Step;
    PurgedIsGone(events, lifetimes, p, i, FqdnVersion(host, name.version));
    var e := events[i];
    AbsentVersionFails(e.cfg, View(e.cfg, StateAt(events, i)), host, name, e.cert, e.clientWorld);
  }

  lemma AbsentVersionFails(
    cfg: Config, s: CacheState, host: string, name: AnsName, cert: CertIdentity, w: Client.ClientWorld)
    requires ClientOutage(cfg, w.first, name.version) && FqdnVersion(host, name.version) !in s.store
    ensures !Client.VerifyNamed(cfg, s, host, name, cert, w).1.IsSuccess()
  {}

  /** When the whole host was purged, clients of every version are rejected. */
  lemma OutageCannotUndoClientRejection(
    events: seq<Event>, lifetimes: CacheConfig, p: nat, i: nat, host: string, name: AnsName)
    requires Orderly(events, lifetimes) && i < |events| && events[i].ClientCheck?
    requires Client.Claims(events[i].cert) == Ok((host, name))
    requires RejectedSince(events, p, i, host)
    requires ClientOutage(events[i].cfg, events[i].clientWorld.first, name.version)
    ensures !ClientOutcome(events, i).IsSuccess()
  {
    hide GoneSince, Step, ClientOutage;
    ClaimedNameValid(events[i].cert, host, name);
    OutageCannotUndoVersionRejection(events, lifetimes, p, i, host, name);
  }

  lemma ClaimedNameValid(cert: CertIdentity, host: string, name: AnsName)
    requires Client.Claims(cert) == Ok((host, name))
    ensures name.Valid()
  {}

  // ----- which answers start a rejection -----

  /** Every badge this span of records stored is followed by a determinate failure within it. */
  ghost predicate Overruled(items: seq<Item>, stop: nat) {
    forall j :: 0 <= j < stop && j < |items| && items[j].result.Ok? ==> !NoDeterminate(items, j + 1, stop)
  }

  ghost predicate RoundRejects(cfg: Config, r: Round, host: string, cert: CertIdentity) {
    r.dns.Found? ==> var items := RoundItems(cfg, r); Overruled(items, Stop(items, 0, cert, host))
  }

  /** The verification met a determinate answer, and its last round left no badge that outlived one. */
  ghost predicate ServerRejects(cfg: Config, s: CacheState, host: string, cert: CertIdentity, w: World) {
    && cfg.caching && Purges(cfg, s, host, cert, w)
    && if w.first.dns.Found? && AllMismatch(RoundItems(cfg, w.first), cert, host)
       then RoundRejects(cfg, w.refresh, host, cert)
       else RoundRejects(cfg, w.first, host, cert)
  }

  /** Likewise for a prefetch, mixed ones included. */
  ghost predicate PrefetchRejects(cfg: Config, r: Round) {
    cfg.caching && PrefetchPurges(cfg, r) && (r.dns.Found? ==> Overruled(RoundItems(cfg, r), |RoundItems(cfg, r)|))
  }

  /** The client met a mismatch and its refresh found no badge, or the version is gone, or the answer was adverse. */
  ghost predicate ClientRejects(
    cfg: Config, s: CacheState, host: string, name: AnsName, cert: CertIdentity, w: Client.ClientWorld)
  {
    && cfg.caching && ClientPurges(cfg, s, host, name, cert, w, FqdnVersion(host, name.version))
    && !Fetches(cfg, if Refreshed(cfg, s, host, name, cert, w) then w.refresh else w.first, name.version)
  }

  /** The client's lookup met a determinate answer, which drops the whole host. */
  ghost predicate ClientRejectsHost(cfg: Config, s: CacheState, host: string, name: AnsName, w: Client.ClientWorld) {
    cfg.caching && Consulted(cfg, s, host, name, w) && ClientAdverse(cfg, w.first, name.version)
  }

  /** Event `p` met a determinate answer for the host and left nothing for it that outlived one. */
  ghost predicate HostRejectedAt(events: seq<Event>, p: nat, host: string)
    requires p < |events|
  {
    var e, s := events[p], StateAt(events, p);
    || (e.ServerCheck? && e.host == host && ServerRejects(e.cfg, s, host, e.cert, e.world))
    || (e.PrefetchOf? && e.host == host && PrefetchRejects(e.cfg, e.round))
    || (e.ClientCheck? && Client.Claims(e.cert).Ok? && Client.Claims(e.cert).value.0 == host
        && ClientRejectsHost(e.cfg, s, host, Client.Claims(e.cert).value.1, e.clientWorld))
  }

  lemma GoneAtOnce(events: seq<Event>, p: nat, key: CacheKey)
    requires PurgedAt(events, p, key) && !StoresSomeAt(events, p, key)
    ensures GoneSince(events, p, p + 1, key)
  {
    assert NothingStored(events, p, p, key);
  }

  /**
   * Which events reject a host: server checks that find nothing published, a determinate DNS or log
   * error, or a mismatch of every badge whose refresh then finds none; prefetches whose last word is a
   * determinate failure; and client checks whose lookup meets a determinate answer.
   */
  lemma RejectionStarts(events: seq<Event>, p: nat, host: string)
    requires p < |events| && HostRejectedAt(events, p, host)
    ensures RejectedSince(events, p, p + 1, host)
  {
    hide Purges, PrefetchPurges, RoundItems, Step, StateAt, Overruled, RecordsLeft, ScanCache, Client.Claims, GoneSince;
    hide ServerRejects, PrefetchRejects, ClientRejectsHost, ServerLeft, PrefetchLeft, ClientLeft, ClientPurges;
    var s, e := StateAt(events, p), events[p];
    forall v ensures GoneSince(events, p, p + 1, FqdnVersion(host, v)) {
      var key := FqdnVersion(host, v);
      match e {
        case ServerCheck(cfg, _, cert, w) => ServerLeavesNothing(cfg, s, host, cert, w, key);
        case PrefetchOf(cfg, _, r) => PrefetchLeavesNothing(cfg, r, host, key);
        case ClientCheck(cfg, cert, w) =>
          AdverseLeavesNothing(cfg, s, host, Client.Claims(cert).value.1, cert, w, key);
      }
      GoneAtOnce(events, p, key);
    }
  }

  lemma OverruledLeavesNothing(
    cfg: Config, items: seq<Item>, stop: nat, host: string, now: nat, key: CacheKey, entry: CachedBadge)
    requires Overruled(items, stop)
    ensures !Left(cfg, items, stop, host, now, key, entry)
  {}

  lemma ServerLeavesNothing(cfg: Config, s: CacheState, host: string, cert: CertIdentity, w: World, key: CacheKey)
    requires ServerRejects(cfg, s, host, cert, w)
    ensures cfg.caching && Purges(cfg, s, host, cert, w)
    ensures forall entry :: !ServerLeft(cfg, s, host, cert, w, key, entry)
  {
    hide Purges, Overruled, Left;
    forall entry ensures !ServerLeft(cfg, s, host, cert, w, key, entry) {
      var r := if w.first.dns.Found? && AllMismatch(RoundItems(cfg, w.first), cert, host) then w.refresh else w.first;
      if r.dns.Found? {
        var items := RoundItems(cfg, r);
        OverruledLeavesNothing(cfg, items, Stop(items, 0, cert, host), host, r.now, key, entry);
      }
    }
  }

  lemma PrefetchLeavesNothing(cfg: Config, r: Round, host: string, key: CacheKey)
    requires PrefetchRejects(cfg, r)
    ensures cfg.caching && PrefetchPurges(cfg, r)
    ensures forall entry :: !PrefetchLeft(cfg, r, host, key, entry)
  {
    hide PrefetchPurges, Overruled, Left;
    forall entry ensures !PrefetchLeft(cfg, r, host, key, entry) {
      if r.dns.Found? {
        OverruledLeavesNothing(cfg, RoundItems(cfg, r), |RoundItems(cfg, r)|, host, r.now, key, entry);
      }
    }
  }

  lemma AdverseLeavesNothing(
    cfg: Config, s: CacheState, host: string, name: AnsName, cert: CertIdentity, w: Client.ClientWorld, key: CacheKey)
    requires ClientRejectsHost(cfg, s, host, name, w) && OfHost(key, host)
    ensures cfg.caching && ClientPurges(cfg, s, host, name, cert, w, key)
    ensures forall entry :: !ClientLeft(cfg, s, host, name, cert, w, key, entry)
  {
    AdverseFetchesNothing(cfg, w.first, name.version);
    forall badge ensures !LookedUp(cfg, w.first, name.version, badge, w.first.now) {
      assert LookedUp(cfg, w.first, name.version, badge, w.first.now) ==> Fetches(cfg, w.first, name.version);
    }
  }

  lemma ClientLeavesNothing(
    cfg: Config, s: CacheState, host: string, name: AnsName, cert: CertIdentity, w: Client.ClientWorld, entry: CachedBadge)
    requires ClientRejects(cfg, s, host, name, cert, w)
    ensures !ClientLeft(cfg, s, host, name, cert, w, FqdnVersion(host, name.version), entry)
  {
    hide ClientPurges, Refreshed, Consulted;
    var l := if Refreshed(cfg, s, host, name, cert, w) then w.refresh else w.first;
    assert LookedUp(cfg, l, name.version, entry.badge, entry.fetchedAt) ==> Fetches(cfg, l, name.version);
  }

  /** Which client checks reject their own version, a mismatch followed by a failed refresh among them. */
  lemma VersionRejectionStarts(events: seq<Event>, p: nat, host: string, name: AnsName)
    requires p < |events| && events[p].ClientCheck? && Client.Claims(events[p].cert) == Ok((host, name))
    requires ClientRejects(events[p].cfg, StateAt(events, p), host, name, events[p].cert, events[p].clientWorld)
    ensures GoneSince(events, p, p + 1, FqdnVersion(host, name.version))
  {
    hide ClientPurges, ClientLeft, Fetches, Client.Claims, StateAt, ServerLeft, PrefetchLeft, Purges;
    var key, s, e := FqdnVersion(host, name.version), StateAt(events, p), events[p];
    forall badge, at: nat ensures !Stores(s, e, key, badge, at) {
      var entry := CachedBadge(badge, at, e.cfg.lifetimes.defaultTtl);
      ClientLeavesNothing(e.cfg, s, host, name, e.cert, e.clientWorld, entry);
    }
    GoneAtOnce(events, p, key);
  }

  // ----- from rejection to outage -----

  lemma RejectionLasts(events: seq<Event>, p: nat, i: nat, host: string, version: Version)
    requires p < i && p < |events| && HostRejectedAt(events, p, host)
    requires NothingStored(events, p + 1, i, FqdnVersion(host, version))
    ensures GoneSince(events, p, i, FqdnVersion(host, version))
  {
    hide PurgedAt, NothingStored, HostRejectedAt;
    RejectionStarts(events, p, host);
    assert GoneSince(events, p, p + 1, FqdnVersion(host, version));
    NothingStoredSpans(events, p, p + 1, i, FqdnVersion(host, version));
  }

  /**
   * The whole statement for servers: an event that rejected the host, be it a server check, a prefetch or
   * a client's lookup; then any events that store nothing for the host; then an outage. It cannot verify.
   */
  lemma ServerRejectionIsSticky(events: seq<Event>, lifetimes: CacheConfig, p: nat, i: nat)
    requires Orderly(events, lifetimes) && p < i < |events| && events[i].ServerCheck?
    requires HostRejectedAt(events, p, events[i].host)
    requires forall v :: NothingStored(events, p + 1, i, FqdnVersion(events[i].host, v))
    requires Outage(events[i].cfg, events[i].world.first)
    ensures !ServerOutcome(events, i).IsSuccess()
  {
    hide PurgedAt, NothingStored, HostRejectedAt, Outage, Step, GoneSince;
    var host := events[i].host;
    forall v ensures GoneSince(events, p, i, FqdnVersion(host, v)) {
      RejectionLasts(events, p, i, host, v);
    }
    OutageCannotUndoServerRejection(events, lifetimes, p, i);
  }

  /** The same event rejects clients of every version for which nothing is stored since. */
  lemma HostRejectionReachesClients(
    events: seq<Event>, lifetimes: CacheConfig, p: nat, i: nat, host: string, name: AnsName)
    requires Orderly(events, lifetimes) && p < i < |events| && events[i].ClientCheck?
    requires Client.Claims(events[i].cert) == Ok((host, name)) && HostRejectedAt(events, p, host)
    requires NothingStored(events, p + 1, i, FqdnVersion(host, name.version))
    requires ClientOutage(events[i].cfg, events[i].clientWorld.first, name.version)
    ensures !ClientOutcome(events, i).IsSuccess()
  {
    hide PurgedAt, NothingStored, HostRejectedAt, ClientOutage, Client.Claims, ClientOutcome, StateAt, GoneSince;
    RejectionLasts(events, p, i, host, name.version);
    ClaimedNameValid(events[i].cert, host, name);
    OutageCannotUndoVersionRejection(events, lifetimes, p, i, host, name);
  }

  /** The whole statement for one version of a client, the failed refresh after a mismatch included. */
  lemma ClientRejectionIsSticky(
    events: seq<Event>, lifetimes: CacheConfig, p: nat, i: nat, host: string, name: AnsName, again: AnsName)
    requires Orderly(events, lifetimes) && p < i < |events| && events[p].ClientCheck? && events[i].ClientCheck?
    requires Client.Claims(events[p].cert) == Ok((host, name)) && Client.Claims(events[i].cert) == Ok((host, again))
    requires again.version == name.version
    requires ClientRejects(events[p].cfg, StateAt(events, p), host, name, events[p].cert, events[p].clientWorld)
    requires NothingStored(events, p + 1, i, FqdnVersion(host, name.version))
    requires ClientOutage(events[i].cfg, events[i].clientWorld.first, name.version)
    ensures !ClientOutcome(events, i).IsSuccess()
  {
    hide PurgedAt, NothingStored, ClientRejects, ClientOutage, Client.Claims, ClientOutcome, StateAt;
    VersionRejectionStarts(events, p, host, name);
    NothingStoredSpans(events, p, p + 1, i, FqdnVersion(host, name.version));
    ClaimedNameValid(events[i].cert, host, again);
    OutageCannotUndoVersionRejection(events, lifetimes, p, i, host, again);
  }

  // ----- a terminal answer is sticky for its version -----

  /** Whatever event `p` left under `key` has no connectable status, and nothing older is left. */
  ghost predicate SettledAt(events: seq<Event>, p: nat, key: CacheKey) {
    && p < |events| && (PurgedAt(events, p, key) || StoresSomeAt(events, p, key))
    && forall badge, at: nat :: StoresAt(events, p, key, badge, at) ==> !Connectable(badge.status)
  }

  /** Some earlier event settled the key, and nothing was stored under it since. */
  ghost predicate Settled(events: seq<Event>, i: nat, key: CacheKey) {
    exists p: nat :: p < i && SettledAt(events, p, key) && NothingStored(events, p + 1, i, key)
  }

  lemma {:induction false} UndisturbedAt(events: seq<Event>, start: nat, stop: nat, k: nat, key: CacheKey)
    requires start <= k < stop
    ensures NothingStored(events, start, stop, key) ==> !StoresSomeAt(events, k, key)
    ensures Unpurged(events, start, stop, key) ==> !PurgedAt(events, k, key)
    decreases stop
  {
    hide StoresSomeAt, PurgedAt;
    if k < stop - 1 {
      UndisturbedAt(events, start, stop - 1, k, key);
    }
  }

  lemma StoresIsSome(events: seq<Event>, k: nat, key: CacheKey, badge: Badge, at: nat)
    requires StoresAt(events, k, key, badge, at)
    ensures StoresSomeAt(events, k, key)
  {
    hide Stores;
  }

  lemma SettledIsUnusable(events: seq<Event>, lifetimes: CacheConfig, i: nat, key: CacheKey)
    requires Orderly(events, lifetimes) && i <= |events| && Settled(events, i, key) && key in StateAt(events, i).store
    ensures !Connectable(StateAt(events, i).store[key].badge.status)
  {
    hide StoresAt, StoresSomeAt, PurgedAt, StateAt, NothingStored, Unpurged;
    var p: nat :| p < i && SettledAt(events, p, key) && NothingStored(events, p + 1, i, key);
    var m := EntryProvenance(events, lifetimes, i, key);
    var entry := StateAt(events, i).store[key];
    StoresIsSome(events, m, key, entry.badge, entry.fetchedAt);
    if m < p {
      UndisturbedAt(events, m + 1, i, p, key);
    } else if m > p {
      UndisturbedAt(events, p + 1, i, m, key);
    }
  }

  /** The entry under this version is evidence for the certificate. */
  ghost predicate HoldsEvidence(s: CacheState, host: string, cert: CertIdentity, version: Version) {
    var key := FqdnVersion(host, version);
    key in s.store && ServerEvidence(s.store[key].badge, cert, host)
  }

  lemma OutageNeedsEvidence(cfg: Config, s: CacheState, host: string, cert: CertIdentity, w: World) returns (version: Version)
    requires Indexed(s) && Lower(host) == host && Outage(cfg, w.first) && Verify(cfg, s, host, cert, w).1.IsSuccess()
    ensures HoldsEvidence(s, host, cert, version)
  {
    hide VerifyBadge, EnforceDane, Outage, StillListed, ServerEvidence;
    DaneGate(cfg, cert, w.tlsa, VerifyBadge(cfg, s, host, cert, w).1);
    OutageSucceedsIff(cfg, s, host, cert, w);
    var v, b :| ServerEvidence(b, cert, host)
                && (FreshEntry(cfg, s, host, w.scanAt, v, b)
                    || (StaleEntry(cfg, s, host, w.first.now, v, b) && StillListed(cfg, w.first, v)));
    version := v;
  }

  /** During an outage a server is verified only by evidence under a version that is not settled. */
  lemma OutageNeedsUnsettledVersion(events: seq<Event>, lifetimes: CacheConfig, i: nat)
    requires Orderly(events, lifetimes) && i < |events| && events[i].ServerCheck?
    requires Outage(events[i].cfg, events[i].world.first)
    ensures ServerOutcome(events, i).IsSuccess() ==>
              exists v :: HoldsEvidence(StateAt(events, i), events[i].host, events[i].cert, v)
                          && !Settled(events, i, FqdnVersion(events[i].host, v))
  {
    hide Settled, StateAt, Verify, Outage;
    StatesStayIndexed(events, lifetimes, i);
    var e := events[i];
    if ServerOutcome(events, i).IsSuccess() {
      var v := OutageNeedsEvidence(e.cfg, View(e.cfg, StateAt(events, i)), e.host, e.cert, e.world);
      if Settled(events, i, FqdnVersion(e.host, v)) {
        SettledIsUnusable(events, lifetimes, i, FqdnVersion(e.host, v));
      }
    }
  }

  /** During an outage no client of a settled version is verified. */
  lemma OutageCannotUndoSettledVersion(events: seq<Event>, lifetimes: CacheConfig, i: nat, host: string, name: AnsName)
    requires Orderly(events, lifetimes) && i < |events| && events[i].ClientCheck?
    requires Client.Claims(events[i].cert) == Ok((host, name)) && Settled(events, i, FqdnVersion(host, name.version))
    requires ClientOutage(events[i].cfg, events[i].clientWorld.first, name.version)
    ensures !ClientOutcome(events, i).IsSuccess()
  {
    hide Settled, StateAt, ClientOutage, Client.VerifyNamed;
    var e, key := events[i], FqdnVersion(host, name.version);
    if key in StateAt(events, i).store {
      SettledIsUnusable(events, lifetimes, i, key);
    }
    UnusableVersionFails(e.cfg, View(e.cfg, StateAt(events, i)), host, name, e.cert, e.clientWorld);
  }

  lemma UnusableVersionFails(
    cfg: Config, s: CacheState, host: string, name: AnsName, cert: CertIdentity, w: Client.ClientWorld)
    requires ClientOutage(cfg, w.first, name.version)
    requires var key := FqdnVersion(host, name.version);
             key in s.store ==> !Connectable(s.store[key].badge.status)
    ensures !Client.VerifyNamed(cfg, s, host, name, cert, w).1.IsSuccess()
  {}

  // ----- which checks settle a version -----

  /** The last lookup of the client brought a badge without a connectable status. */
  ghost predicate ClientTerminal(
    cfg: Config, s: CacheState, host: string, name: AnsName, cert: CertIdentity, w: Client.ClientWorld)
  {
    && cfg.caching
    && if Refreshed(cfg, s, host, name, cert, w) then TerminalLookup(cfg, w.refresh, name.version)
       else Consulted(cfg, s, host, name, w) && TerminalLookup(cfg, w.first, name.version)
  }

  ghost predicate TerminalLookup(cfg: Config, l: Client.Lookup, version: Version) {
    exists badge :: LookedUp(cfg, l, version, badge, l.now) && !Connectable(badge.status)
  }

  /** A client that met a terminal badge settles its version, until something is stored for it again. */
  lemma ClientTerminalSettles(events: seq<Event>, p: nat, host: string, name: AnsName)
    requires p < |events| && events[p].ClientCheck? && Client.Claims(events[p].cert) == Ok((host, name))
    requires ClientTerminal(events[p].cfg, StateAt(events, p), host, name, events[p].cert, events[p].clientWorld)
    ensures SettledAt(events, p, FqdnVersion(host, name.version))
  {
    hide Refreshed, Consulted, Client.Claims, StateAt, ClientPurges, Client.Choose;
    var key, s, e := FqdnVersion(host, name.version), StateAt(events, p), events[p];
    var l := if Refreshed(e.cfg, s, host, name, e.cert, e.clientWorld) then e.clientWorld.refresh else e.clientWorld.first;
    var badge :| LookedUp(e.cfg, l, name.version, badge, l.now) && !Connectable(badge.status);
    assert Stores(s, e, key, badge, l.now);
  }

  /** The last round of the server check ends with a terminal badge, stored under this version. */
  ghost predicate ServerTerminal(cfg: Config, s: CacheState, host: string, cert: CertIdentity, w: World, version: Version) {
    && ScanCache(cfg, s, host, cert, w.scanAt).None? && w.first.dns.Found?
    && if AllMismatch(RoundItems(cfg, w.first), cert, host) then TerminalRound(cfg, w.refresh, host, cert, version)
       else TerminalRound(cfg, w.first, host, cert, version)
  }

  ghost predicate TerminalRound(cfg: Config, r: Round, host: string, cert: CertIdentity, version: Version) {
    && r.dns.Found?
    && exists d: nat :: TerminalAt(RoundItems(cfg, r), cert, host, d) && StoredUnder(cfg, RoundItems(cfg, r)[d], version)
  }

  lemma {:induction false} StopsAfterDecision(items: seq<Item>, i: nat, d: nat, cert: CertIdentity, host: string)
    requires i <= d < |items| && Decisive(items[d], cert, host) && forall k :: 0 <= k < d ==> !Decisive(items[k], cert, host)
    ensures Stop(items, i, cert, host) == d + 1
    decreases d - i
  {
    hide Decisive;
    if i < d {
      StopsAfterDecision(items, i + 1, d, cert, host);
    }
  }

  /** The deciding badge is what the round leaves under its version, and nothing else is. */
  lemma DecidingBadgeIsLeft(
    cfg: Config, r: Round, host: string, cert: CertIdentity, version: Version) returns (badge: Badge)
    requires TerminalRound(cfg, r, host, cert, version)
    ensures !Connectable(badge.status)
    ensures var key := FqdnVersion(host, version);
            && RoundLeft(cfg, r, host, cert, key, CachedBadge(badge, r.now, cfg.lifetimes.defaultTtl))
            && forall entry :: RoundLeft(cfg, r, host, cert, key, entry) ==> entry.badge == badge
  {
    hide RoundItems;
    var items, key := RoundItems(cfg, r), FqdnVersion(host, version);
    var d: nat :| TerminalAt(items, cert, host, d) && StoredUnder(cfg, items[d], version);
    badge := items[d].result.value;
    TerminalDecides(badge, cert, host);
    StopsAfterDecision(items, 0, d, cert, host);
    assert StoredBy(cfg, items, d, d + 1, host, r.now, key, CachedBadge(badge, r.now, cfg.lifetimes.defaultTtl));
    forall entry | RoundLeft(cfg, r, host, cert, key, entry) ensures entry.badge == badge {
      var j: nat :| StoredBy(cfg, items, j, d + 1, host, r.now, key, entry);
      assert j == d;
    }
  }

  /** A server check that ends with a terminal badge settles the version that badge is stored under. */
  lemma ServerTerminalSettles(events: seq<Event>, p: nat, version: Version)
    requires p < |events| && events[p].ServerCheck? && events[p].cfg.caching
    requires ServerTerminal(events[p].cfg, StateAt(events, p), events[p].host, events[p].cert, events[p].world, version)
    ensures SettledAt(events, p, FqdnVersion(events[p].host, version))
  {
    hide StateAt, ScanCache, RoundItems, RoundLeft, TerminalRound, AllMismatch, Purges, ClientLeft, PrefetchLeft;
    var key, s, e := FqdnVersion(events[p].host, version), StateAt(events, p), events[p];
    var r := if AllMismatch(RoundItems(e.cfg, e.world.first), e.cert, e.host) then e.world.refresh else e.world.first;
    var badge := DecidingBadgeIsLeft(e.cfg, r, e.host, e.cert, version);
    assert Stores(s, e, key, badge, r.now);
  }
}
