/** Verification of a server by its badge records: cache scan, lookup, refresh once, stale fallback, DANE. */
module ServerVerifier {
  import opened Wrappers
  import opened Text
  import opened Names
  import opened Badges
  import opened BadgeCache
  import opened Outcomes
  import opened Records
  import opened BadgeRules
  import Dane

  /** One DNS lookup, the log's answer for each record in sorted order, and the time of the answers. */
  datatype Round = Round(dns: DnsAnswer, fetch: nat -> FetchAnswer, now: nat)

  /** Everything a verification can observe from outside. */
  datatype World = World(scanAt: nat, first: Round, refresh: Round, tlsa: Result<seq<Dane.TlsaRecord>, Dane.DnsError>)

  datatype Item = Item(record: Record, result: Result<Badge, TlogError>, evicted: set<CacheKey>) {
    /** A missing, malformed or untrusted answer, as opposed to an outage. */
    ghost predicate Determinate() {
      result.Err? && LogAnswered(result.error)
    }
  }

  function FetchAll(cfg: Config, sorted: seq<Record>, fetch: nat -> FetchAnswer): (items: seq<Item>)
    ensures |items| == |sorted|
    ensures forall i :: 0 <= i < |sorted| ==>
      items[i] == Item(sorted[i], FetchOne(cfg, sorted[i].url, fetch(i).result), fetch(i).evicted)
  {
    seq(|sorted|, i requires 0 <= i < |sorted| =>
      Item(sorted[i], FetchOne(cfg, sorted[i].url, fetch(i).result), fetch(i).evicted))
  }

  function RoundItems(cfg: Config, r: Round): seq<Item>
    requires r.dns.Found?
  {
    FetchAll(cfg, SortNewestFirst(r.dns.records), r.fetch)
  }

  // ----- cached badges -----

  function FirstSuccess(cached: seq<CachedBadge>, cert: CertIdentity, host: string): Option<Outcome> {
    if cached == [] then None
    else
      var outcome := VerifyServerBadge(cached[0].badge, cert, host);
      if outcome.IsSuccess() then Some(outcome) else FirstSuccess(cached[1..], cert, host)
  }

  function YoungerThan(cached: seq<CachedBadge>, now: nat, age: nat): seq<CachedBadge> {
    if cached == [] then []
    else (if Elapsed(cached[0].fetchedAt, now) < age then [cached[0]] else []) + YoungerThan(cached[1..], now, age)
  }

  /** A cached badge an outage may fall back on; only under the fail-open policy. */
  function StaleSuccess(cfg: Config, s: CacheState, host: string, cert: CertIdentity, now: nat): Option<Outcome> {
    if cfg.policy.FailClosed? then None
    else
      var cached := CollectForFqdn(s, cfg.lifetimes.hardTtl, now, host, true);
      FirstSuccess(YoungerThan(cached, now, cfg.policy.maxStaleness), cert, host)
  }

  // ----- error handlers -----

  function AfterDnsError(
    cfg: Config, s: CacheState, error: Dane.DnsError, host: string, cert: CertIdentity, now: nat): (CacheState, Outcome)
  {
    if !error.IsUnavailable() then (InvalidateFqdn(s, host), DnsFailure(error))
    else
      match StaleSuccess(cfg, s, host, cert, now)
      case Some(outcome) => (s, outcome)
      case None => (s, DnsFailure(error))
  }

  function Report(error: AnsError): Outcome {
    match error
    case TransparencyLog(e) => TlogFailure(e)
    case DnsLookup(e) => DnsFailure(e)
    case Certificate(e) => CertFailure(e)
    case Parse(e) => ParseFailure(e)
    case Verification => NotAnsAgent
    case Scitt(_) => NotAnsAgent
  }

  function AfterAnsError(
    cfg: Config, s: CacheState, error: AnsError, host: string, cert: CertIdentity, now: nat): (CacheState, Outcome)
  {
    if !error.MayUseStale() then (InvalidateFqdn(s, host), Report(error))
    else
      match StaleSuccess(cfg, s, host, cert, now)
      case Some(outcome) => (s, outcome)
      case None => (s, Report(error))
  }

  // ----- one pass over the fetched records -----

  function ListedVersions(sorted: seq<Record>): seq<Version> {
    if sorted == [] then []
    else (if sorted[0].version.Some? then [sorted[0].version.value] else []) + ListedVersions(sorted[1..])
  }

  function IndexRecords(cfg: Config, s: CacheState, host: string, sorted: seq<Record>): CacheState {
    var versions := ListedVersions(sorted);
    if cfg.caching && versions != [] then SetVersionIndex(s, host, versions) else s
  }

  /** The version a fetched badge is stored under: the record's, or else the badge's own. */
  function StoredVersion(record: Record, badge: Badge): Option<Version> {
    if record.version.Some? then record.version
    else
      match ParseVersion(badge.version)
      case Ok(v) => Some(v)
      case Err(_) => None
  }

  function StoreFetched(cfg: Config, s: CacheState, host: string, item: Item, badge: Badge, now: nat): CacheState {
    match StoredVersion(item.record, badge)
    case Some(v) =>
      if cfg.caching then Insert(s, FqdnVersion(host, v), badge, now, cfg.lifetimes.defaultTtl, item.evicted) else s
    case None => s
  }

  datatype PassEnd = Decided(outcome: Outcome) | Exhausted(mismatch: Option<Outcome>, error: Option<AnsError>)

  function RunPass(
    cfg: Config, s: CacheState, host: string, cert: CertIdentity, now: nat,
    items: seq<Item>, i: nat, mismatch: Option<Outcome>, error: Option<AnsError>): (CacheState, PassEnd)
    requires i <= |items|
    decreases |items| - i
  {
    if i == |items| then (s, Exhausted(mismatch, error))
    else
      match items[i].result
      case Err(e) =>
        var s1 := if e.IsUnavailable() then s else InvalidateFqdn(s, host);
        RunPass(cfg, s1, host, cert, now, items, i + 1, mismatch, RecordTlogError(error, e))
      case Ok(badge) =>
        var s1 := StoreFetched(cfg, s, host, items[i], badge, now);
        var outcome := VerifyServerBadge(badge, cert, host);
        if outcome.FingerprintMismatch?
        then RunPass(cfg, s1, host, cert, now, items, i + 1, Some(outcome), error)
        else (s1, Decided(outcome))
  }

  function PassOver(cfg: Config, s: CacheState, host: string, cert: CertIdentity, r: Round): (CacheState, PassEnd)
    requires r.dns.Found?
  {
    var indexed := IndexRecords(cfg, s, host, SortNewestFirst(r.dns.records));
    RunPass(cfg, indexed, host, cert, r.now, RoundItems(cfg, r), 0, None, None)
  }

  // ----- the whole verification -----

  /** The second and last lookup, after every fetched badge mismatched. */
  function Refresh(cfg: Config, s: CacheState, host: string, cert: CertIdentity, r: Round): (CacheState, Outcome) {
    var purged := InvalidateFqdn(s, host);
    match r.dns
    case Absent => (purged, NotAnsAgent)
    case Failed(e) => (purged, DnsFailure(e))
    case Found(_) =>
      var (s1, end) := PassOver(cfg, purged, host, cert, r);
      match end
      case Decided(outcome) => (s1, outcome)
      case Exhausted(Some(mismatch), _) => (s1, mismatch)
      case Exhausted(None, Some(error)) => AfterAnsError(cfg, s1, error, host, cert, r.now)
      case Exhausted(None, None) => (s1, NotAnsAgent)
  }

  function VerifyRecords(cfg: Config, s: CacheState, host: string, cert: CertIdentity, first: Round, refresh: Round)
    : (CacheState, Outcome)
    requires first.dns.Found?
  {
    var (s1, end) := PassOver(cfg, s, host, cert, first);
    match end
    case Decided(outcome) => (s1, outcome)
    case Exhausted(Some(_), _) => Refresh(cfg, s1, host, cert, refresh)
    case Exhausted(None, Some(error)) => AfterAnsError(cfg, s1, error, host, cert, first.now)
    case Exhausted(None, None) => (s1, NotAnsAgent)
  }

  function ScanCache(cfg: Config, s: CacheState, host: string, cert: CertIdentity, now: nat): Option<Outcome> {
    FirstSuccess(CollectForFqdn(s, cfg.lifetimes.hardTtl, now, host, false), cert, host)
  }

  function VerifyBadge(cfg: Config, s: CacheState, host: string, cert: CertIdentity, w: World): (CacheState, Outcome) {
    match ScanCache(cfg, s, host, cert, w.scanAt)
    case Some(outcome) => (s, outcome)
    case None =>
      match w.first.dns
      case Absent => (InvalidateFqdn(s, host), NotAnsAgent)
      case Failed(e) => AfterDnsError(cfg, s, e, host, cert, w.first.now)
      case Found(_) => VerifyRecords(cfg, s, host, cert, w.first, w.refresh)
  }

  ghost function DaneDecision(cfg: Config, cert: CertIdentity, records: seq<Dane.TlsaRecord>)
    : Result<Dane.DaneResult, Dane.DaneError>
  {
    Dane.Decide(records, cfg.dane, r => Dane.MatchesCert(cfg.digests, r, cert))
  }

  ghost function EnforceDane(
    cfg: Config, cert: CertIdentity, tlsa: Result<seq<Dane.TlsaRecord>, Dane.DnsError>, outcome: Outcome): Outcome
  {
    if !outcome.IsSuccess() || cfg.dane.Disabled? then outcome
    else
      match tlsa
      case Err(e) => DaneFailure(Dane.DnsLookup(e))
      case Ok(records) =>
        match DaneDecision(cfg, cert, records)
        case Err(e) => DaneFailure(e)
        case Ok(result) =>
          if Dane.IsAcceptable(result, cfg.dane) then outcome else DaneFailure(Dane.FingerprintMismatch)
  }

  ghost function Verify(cfg: Config, s: CacheState, host: string, cert: CertIdentity, w: World): (CacheState, Outcome) {
    var (s1, outcome) := VerifyBadge(cfg, s, host, cert, w);
    (s1, EnforceDane(cfg, cert, w.tlsa, outcome))
  }

  // ----- prefetch -----

  function PrefetchItems(
    cfg: Config, s: CacheState, host: string, now: nat, items: seq<Item>, i: nat,
    preferred: Option<Badge>, error: Option<AnsError>): (CacheState, Option<Badge>, Option<AnsError>)
    requires i <= |items|
    decreases |items| - i
  {
    if i == |items| then (s, preferred, error)
    else
      match items[i].result
      case Err(e) =>
        var s1 := if e.IsUnavailable() then s else InvalidateFqdn(s, host);
        PrefetchItems(cfg, s1, host, now, items, i + 1, preferred, RecordTlogError(error, e))
      case Ok(badge) =>
        var s1 := StoreFetched(cfg, s, host, items[i], badge, now);
        var choice := if preferred.None? && badge.status.ValidForConnection() then Some(badge) else preferred;
        PrefetchItems(cfg, s1, host, now, items, i + 1, choice, error)
  }

  function Prefetch(cfg: Config, s: CacheState, host: string, r: Round): (CacheState, Result<Badge, AnsError>) {
    match r.dns
    case Absent => (InvalidateFqdn(s, host), Err(DnsLookup(Dane.NotFound)))
    case Failed(e) => (if e.IsUnavailable() then s else InvalidateFqdn(s, host), Err(DnsLookup(e)))
    case Found(records) =>
      var indexed := IndexRecords(cfg, s, host, SortNewestFirst(records));
      var (s1, preferred, error) := PrefetchItems(cfg, indexed, host, r.now, RoundItems(cfg, r), 0, None, None);
      match preferred
      case Some(badge) => (s1, Ok(badge))
      case None => (s1, Err(if error.Some? then error.value else TransparencyLog(InvalidResponse)))
  }

  // ----- the verifier object -----

  /** The verifier with its shared badge cache, `null` when caching is off. */
  class ServerVerifier {
    const cfg: Config
    const cache: BadgeCache?

    ghost predicate Valid() {
      && (cfg.caching <==> cache != null)
      && (cache != null ==> cache.config == cfg.lifetimes)
    }

    ghost function State(): (s: CacheState)
      reads cache
    {
      if cache == null then EMPTY else cache.State()
    }

    constructor (cfg: Config, cache: BadgeCache?)
      requires cfg.caching <==> cache != null
      requires cache != null ==> cache.config == cfg.lifetimes
      ensures Valid() && this.cfg == cfg && this.cache == cache
    {
      this.cfg := cfg;
      this.cache := cache;
    }

    method ForgetHost(host: string)
      modifies cache
      ensures State() == InvalidateFqdn(old(State()), host)
    {
      if cache != null {
        cache.InvalidateHost(host);
      }
    }

    method ForgetHostOnAdverse(host: string, error: TlogError)
      modifies cache
      ensures State() == if error.IsUnavailable() then old(State()) else InvalidateFqdn(old(State()), host)
    {
      if !error.IsUnavailable() {
        ForgetHost(host);
      }
    }

    method IndexVersions(host: string, sorted: seq<Record>)
      requires Valid()
      modifies cache
      ensures State() == IndexRecords(cfg, old(State()), host, sorted)
    {
      var versions := ListedVersions(sorted);
      if cache != null && versions != [] {
        cache.SetVersions(host, versions);
      }
    }

    method StoreBadge(host: string, item: Item, badge: Badge, now: nat)
      requires Valid()
      modifies cache
      ensures State() == StoreFetched(cfg, old(State()), host, item, badge, now)
    {
      var version := StoredVersion(item.record, badge);
      if cache != null && version.Some? {
        cache.InsertWithTtl(FqdnVersion(host, version.value), badge, now, cfg.lifetimes.defaultTtl, item.evicted);
      }
    }

    /** First cached badge that verifies; `maxAge` bounds the age when stale entries are admitted. */
    method ScanBadges(host: string, cert: CertIdentity, now: nat, allowStale: bool, maxAge: nat)
      returns (hit: Option<Outcome>)
      requires Valid()
      ensures var cached := CollectForFqdn(State(), cfg.lifetimes.hardTtl, now, host, allowStale);
              hit == FirstSuccess(if allowStale then YoungerThan(cached, now, maxAge) else cached, cert, host)
    {
      if cache == null {
        return None;
      }
      var cached := cache.Collect(host, now, allowStale);
      ghost var wanted := if allowStale then YoungerThan(cached, now, maxAge) else cached;
      for i := 0 to |cached|
        invariant !allowStale ==> FirstSuccess(wanted, cert, host) == FirstSuccess(cached[i..], cert, host)
        invariant allowStale ==>
                    FirstSuccess(wanted, cert, host) == FirstSuccess(YoungerThan(cached[i..], now, maxAge), cert, host)
      {
        assert cached[i..][1..] == cached[i + 1..];
        ghost var tail := YoungerThan(cached[i + 1..], now, maxAge);
        assert ([cached[i]] + tail)[1..] == tail && [] + tail == tail;
        if !allowStale || Elapsed(cached[i].fetchedAt, now) < maxAge {
          var outcome := VerifyServerBadge(cached[i].badge, cert, host);
          if outcome.IsSuccess() {
            return Some(outcome);
          }
        }
      }
      return None;
    }

    method UseStale(host: string, cert: CertIdentity, now: nat) returns (hit: Option<Outcome>)
      requires Valid()
      ensures hit == StaleSuccess(cfg, State(), host, cert, now)
    {
      match cfg.policy
      case FailClosed => hit := None;
      case FailOpenWithCache(maxStaleness) => hit := ScanBadges(host, cert, now, true, maxStaleness);
    }

    method HandleDnsError(error: Dane.DnsError, host: string, cert: CertIdentity, now: nat) returns (outcome: Outcome)
      requires Valid()
      modifies cache
      ensures (State(), outcome) == AfterDnsError(cfg, old(State()), error, host, cert, now)
    {
      if !error.IsUnavailable() {
        ForgetHost(host);
        return DnsFailure(error);
      }
      var hit := UseStale(host, cert, now);
      return if hit.Some? then hit.value else DnsFailure(error);
    }

    method HandleAnsError(error: AnsError, host: string, cert: CertIdentity, now: nat) returns (outcome: Outcome)
      requires Valid()
      modifies cache
      ensures (State(), outcome) == AfterAnsError(cfg, old(State()), error, host, cert, now)
    {
      if !error.MayUseStale() {
        ForgetHost(host);
        return Report(error);
      }
      var hit := UseStale(host, cert, now);
      return if hit.Some? then hit.value else Report(error);
    }

    /** The record loop, the same in the first attempt and in the final one. */
    method TryRecords(host: string, cert: CertIdentity, r: Round) returns (end: PassEnd)
      requires Valid() && r.dns.Found?
      modifies cache
      ensures (State(), end) == PassOver(cfg, old(State()), host, cert, r)
    {
      var sorted := SortNewestFirst(r.dns.records);
      IndexVersions(host, sorted);
      var items := FetchAll(cfg, sorted, r.fetch);
      var mismatch: Option<Outcome> := None;
      var error: Option<AnsError> := None;
      for i := 0 to |items|
        invariant RunPass(cfg, State(), host, cert, r.now, items, i, mismatch, error)
                  == PassOver(cfg, old(State()), host, cert, r)
      {
        match items[i].result {
          case Err(e) =>
            ForgetHostOnAdverse(host, e);
            error := RecordTlogError(error, e);
          case Ok(badge) =>
            StoreBadge(host, items[i], badge, r.now);
            var outcome := VerifyServerBadge(badge, cert, host);
            if !outcome.FingerprintMismatch? {
              return Decided(outcome);
            }
            mismatch := Some(outcome);
        }
      }
      return Exhausted(mismatch, error);
    }

    method VerifyWithRefresh(host: string, cert: CertIdentity, r: Round) returns (outcome: Outcome)
      requires Valid()
      modifies cache
      ensures (State(), outcome) == Refresh(cfg, old(State()), host, cert, r)
    {
      ForgetHost(host);
      match r.dns
      case Absent => return NotAnsAgent;
      case Failed(e) => return DnsFailure(e);
      case Found(_) =>
        var end := TryRecords(host, cert, r);
        match end
        case Decided(decision) => return decision;
        case Exhausted(Some(mismatch), _) => return mismatch;
        case Exhausted(None, Some(error)) => outcome := HandleAnsError(error, host, cert, r.now);
        case Exhausted(None, None) => return NotAnsAgent;
    }

    method VerifyAgainstRecords(host: string, cert: CertIdentity, first: Round, refresh: Round) returns (outcome: Outcome)
      requires Valid() && first.dns.Found?
      modifies cache
      ensures (State(), outcome) == VerifyRecords(cfg, old(State()), host, cert, first, refresh)
    {
      var end := TryRecords(host, cert, first);
      match end
      case Decided(decision) => return decision;
      case Exhausted(Some(_), _) => outcome := VerifyWithRefresh(host, cert, refresh);
      case Exhausted(None, Some(error)) => outcome := HandleAnsError(error, host, cert, first.now);
      case Exhausted(None, None) => return NotAnsAgent;
    }

    method VerifyByBadge(host: string, cert: CertIdentity, w: World) returns (outcome: Outcome)
      requires Valid()
      modifies cache
      ensures (State(), outcome) == VerifyBadge(cfg, old(State()), host, cert, w)
    {
      var hit := ScanBadges(host, cert, w.scanAt, false, 0);
      if hit.Some? {
        return hit.value;
      }
      match w.first.dns
      case Absent =>
        ForgetHost(host);
        return NotAnsAgent;
      case Failed(e) => outcome := HandleDnsError(e, host, cert, w.first.now);
      case Found(_) => outcome := VerifyAgainstRecords(host, cert, w.first, w.refresh);
    }

    method DaneGate(cert: CertIdentity, tlsa: Result<seq<Dane.TlsaRecord>, Dane.DnsError>, outcome: Outcome)
      returns (gated: Outcome)
      ensures gated == EnforceDane(cfg, cert, tlsa, outcome)
    {
      if !outcome.IsSuccess() || cfg.dane.Disabled? {
        return outcome;
      }
      if tlsa.Err? {
        return DaneFailure(Dane.DnsLookup(tlsa.error));
      }
      var decision := Dane.VerifyWith(tlsa.value, cfg.dane, r => Dane.MatchesCert(cfg.digests, r, cert));
      if decision.Err? {
        return DaneFailure(decision.error);
      }
      return if Dane.IsAcceptable(decision.value, cfg.dane) then outcome else DaneFailure(Dane.FingerprintMismatch);
    }

    method VerifyServer(host: string, cert: CertIdentity, w: World) returns (outcome: Outcome)
      requires Valid()
      modifies cache
      ensures (State(), outcome) == Verify(cfg, old(State()), host, cert, w)
    {
      var badgeOutcome := VerifyByBadge(host, cert, w);
      outcome := DaneGate(cert, w.tlsa, badgeOutcome);
    }

    method PrefetchHost(host: string, r: Round) returns (result: Result<Badge, AnsError>)
      requires Valid()
      modifies cache
      ensures (State(), result) == Prefetch(cfg, old(State()), host, r)
    {
      match r.dns {
        case Absent =>
          ForgetHost(host);
          return Err(DnsLookup(Dane.NotFound));
        case Failed(e) =>
          if !e.IsUnavailable() {
            ForgetHost(host);
          }
          return Err(DnsLookup(e));
        case Found(records) =>
          var sorted := SortNewestFirst(records);
          IndexVersions(host, sorted);
          var items := FetchAll(cfg, sorted, r.fetch);
          var preferred: Option<Badge> := None;
          var error: Option<AnsError> := None;
          ghost var indexed := State();
          for i := 0 to |items|
            invariant PrefetchItems(cfg, State(), host, r.now, items, i, preferred, error)
                      == PrefetchItems(cfg, indexed, host, r.now, items, 0, None, None)
          {
            match items[i].result {
              case Err(e) =>
                ForgetHostOnAdverse(host, e);
                error := RecordTlogError(error, e);
              case Ok(badge) =>
                StoreBadge(host, items[i], badge, r.now);
                if preferred.None? && badge.status.ValidForConnection() {
                  preferred := Some(badge);
                }
            }
          }
          return if preferred.Some? then Ok(preferred.value)
                 else Err(if error.Some? then error.value else TransparencyLog(InvalidResponse));
      }
    }
  }
}
