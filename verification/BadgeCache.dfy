/** The badge store with its per-host version index, soft and hard lifetimes. */
module BadgeCache {
  import opened Wrappers
  import opened Text
  import opened Names
  import opened Badges

  datatype CacheKey = FqdnVersion(host: string, version: Version) | Url(url: string)

  datatype CachedBadge = CachedBadge(badge: Badge, fetchedAt: nat, ttl: nat)

  /** `defaultTtl` bounds freshness and `hardTtl` bounds residency. */
  datatype CacheConfig = CacheConfig(defaultTtl: nat, hardTtl: nat)

  function Clamped(config: CacheConfig): CacheConfig {
    if config.hardTtl < config.defaultTtl then config.(hardTtl := config.defaultTtl) else config
  }

  type Store = map<CacheKey, CachedBadge>
  type VersionIndex = map<string, seq<Version>>

  datatype CacheState = CacheState(store: Store, index: VersionIndex)

  const EMPTY := CacheState(map[], map[])

  function Elapsed(since: nat, now: nat): nat {
    if now < since then 0 else now - since
  }

  /** Fewer than `bound` seconds after `at`, or before it. */
  ghost predicate Within(at: nat, now: nat, bound: nat) {
    0 < bound && now < at + bound
  }

  // ----- reads -----

  /** A lookup that ignores freshness; an entry past the hard lifetime is gone. */
  function GetAllowStale(s: CacheState, hardTtl: nat, now: nat, key: CacheKey): Option<CachedBadge> {
    if key in s.store && Elapsed(s.store[key].fetchedAt, now) < hardTtl then Some(s.store[key]) else None
  }

  function Get(s: CacheState, hardTtl: nat, now: nat, key: CacheKey): Option<CachedBadge> {
    match GetAllowStale(s, hardTtl, now, key)
    case Some(cached) => if Elapsed(cached.fetchedAt, now) < cached.ttl then Some(cached) else None
    case None => None
  }

  function Lookup(s: CacheState, hardTtl: nat, now: nat, key: CacheKey, allowStale: bool): Option<CachedBadge> {
    if allowStale then GetAllowStale(s, hardTtl, now, key) else Get(s, hardTtl, now, key)
  }

  function CollectVersions(s: CacheState, hardTtl: nat, now: nat, host: string, versions: seq<Version>, allowStale: bool)
    : seq<CachedBadge>
  {
    if versions == [] then []
    else
      var last := |versions| - 1;
      var front := CollectVersions(s, hardTtl, now, host, versions[..last], allowStale);
      match Lookup(s, hardTtl, now, FqdnVersion(host, versions[last]), allowStale)
      case Some(cached) => front + [cached]
      case None => front
  }

  function CollectForFqdn(s: CacheState, hardTtl: nat, now: nat, host: string, allowStale: bool): seq<CachedBadge> {
    if host in s.index then CollectVersions(s, hardTtl, now, host, s.index[host], allowStale) else []
  }

  // ----- writes -----

  function WithoutKeys(store: Store, gone: set<CacheKey>): Store {
    map key | key in store && key !in gone :: store[key]
  }

  /** Capacity eviction: the store may drop any entries at any time; the index is not told. */
  function Evict(s: CacheState, gone: set<CacheKey>): CacheState {
    s.(store := WithoutKeys(s.store, gone))
  }

  /** `evicted` is what the store drops to make room, possibly the new entry itself. */
  function Insert(s: CacheState, key: CacheKey, badge: Badge, now: nat, ttl: nat, evicted: set<CacheKey>): CacheState {
    var store := WithoutKeys(s.store[key := CachedBadge(badge, now, ttl)], evicted);
    match key
    case FqdnVersion(host, version) =>
      var folded := Lower(host);
      var known := if folded in s.index then s.index[folded] else [];
      CacheState(store, s.index[folded := if version in known then known else known + [version]])
    case Url(_) => CacheState(store, s.index)
  }

  function Invalidate(s: CacheState, key: CacheKey): CacheState {
    s.(store := WithoutKeys(s.store, {key}))
  }

  function KeysOf(host: string, versions: seq<Version>): set<CacheKey> {
    set v | v in versions :: FqdnVersion(host, v)
  }

  function WithoutHost(index: VersionIndex, host: string): VersionIndex {
    map h | h in index && h != host :: index[h]
  }

  function InvalidateFqdn(s: CacheState, host: string): CacheState {
    if host in s.index then
      CacheState(WithoutKeys(s.store, KeysOf(host, s.index[host])), WithoutHost(s.index, host))
    else s
  }

  function SetVersionIndex(s: CacheState, host: string, versions: seq<Version>): CacheState {
    var gone := if host in s.index then set v | v in s.index[host] && v !in versions :: FqdnVersion(host, v) else {};
    CacheState(WithoutKeys(s.store, gone), s.index[host := versions])
  }

  class BadgeCache {
    var store: Store
    var index: VersionIndex
    const config: CacheConfig

    function State(): CacheState
      reads this
    {
      CacheState(store, index)
    }

    constructor (config: CacheConfig)
      ensures State() == EMPTY && this.config == Clamped(config)
    {
      this.config := Clamped(config);
      store := map[];
      index := map[];
    }

    method InsertWithTtl(key: CacheKey, badge: Badge, now: nat, ttl: nat, evicted: set<CacheKey>)
      modifies this
      ensures State() == Insert(old(State()), key, badge, now, ttl, evicted)
    {
      if key.FqdnVersion? {
        var folded := Lower(key.host);
        var versions := if folded in index then index[folded] else [];
        if key.version !in versions {
          versions := versions + [key.version];
        }
        index := index[folded := versions];
      }
      store := store[key := CachedBadge(badge, now, ttl)];
      store := WithoutKeys(store, evicted);
    }

    method InvalidateKey(key: CacheKey)
      modifies this
      ensures State() == Invalidate(old(State()), key)
    {
      store := WithoutKeys(store, {key});
    }

    method InvalidateHost(host: string)
      modifies this
      ensures State() == InvalidateFqdn(old(State()), host)
    {
      if host in index {
        var versions := index[host];
        index := WithoutHost(index, host);
        for i := 0 to |versions|
          invariant index == WithoutHost(old(index), host)
          invariant store == WithoutKeys(old(store), KeysOf(host, versions[..i]))
        {
          store := WithoutKeys(store, {FqdnVersion(host, versions[i])});
        }
        assert versions[..|versions|] == versions;
      }
    }

    method SetVersions(host: string, versions: seq<Version>)
      modifies this
      ensures State() == SetVersionIndex(old(State()), host, versions)
    {
      var previous := if host in index then index[host] else [];
      index := index[host := versions];
      for i := 0 to |previous|
        invariant index == old(index)[host := versions]
        invariant store == WithoutKeys(old(store), set v | v in previous[..i] && v !in versions :: FqdnVersion(host, v))
      {
        if previous[i] !in versions {
          store := WithoutKeys(store, {FqdnVersion(host, previous[i])});
        }
      }
      assert previous[..|previous|] == previous;
    }

    method Clear()
      modifies this
      ensures State() == EMPTY
    {
      store := map[];
      index := map[];
    }

    method Collect(host: string, now: nat, allowStale: bool) returns (results: seq<CachedBadge>)
      ensures results == CollectForFqdn(State(), config.hardTtl, now, host, allowStale)
    {
      results := [];
      if host !in index {
        return;
      }
      var versions := index[host];
      for i := 0 to |versions|
        invariant results == CollectVersions(State(), config.hardTtl, now, host, versions[..i], allowStale)
      {
        assert versions[..i + 1][..i] == versions[..i];
        var cached := Lookup(State(), config.hardTtl, now, FqdnVersion(host, versions[i]), allowStale);
        if cached.Some? {
          results := results + [cached.value];
        }
      }
      assert versions[..|versions|] == versions;
    }
  }

  // ----- the index agrees with the store -----

  /** Every resident entry under a folded host name has its version in that host's index. */
  ghost predicate Indexed(s: CacheState) {
    forall host, version {:trigger FqdnVersion(host, version)} ::
      FqdnVersion(host, version) in s.store && Lower(host) == host ==>
        host in s.index && version in s.index[host]
  }

  ghost predicate NoEntries(s: CacheState, host: string) {
    forall version {:trigger FqdnVersion(host, version)} :: FqdnVersion(host, version) !in s.store
  }

  datatype CacheOp =
    | InsertOp(key: CacheKey, badge: Badge, now: nat, ttl: nat, evicted: set<CacheKey>)
    | InvalidateOp(key: CacheKey)
    | InvalidateFqdnOp(host: string)
    | SetVersionIndexOp(host: string, versions: seq<Version>)
    | ClearOp
    | EvictOp(gone: set<CacheKey>)

  function ApplyOp(s: CacheState, op: CacheOp): CacheState {
    match op
    case InsertOp(key, badge, now, ttl, evicted) => Insert(s, key, badge, now, ttl, evicted)
    case InvalidateOp(key) => Invalidate(s, key)
    case InvalidateFqdnOp(host) => InvalidateFqdn(s, host)
    case SetVersionIndexOp(host, versions) => SetVersionIndex(s, host, versions)
    case ClearOp => EMPTY
    case EvictOp(gone) => Evict(s, gone)
  }

  function AfterOps(ops: seq<CacheOp>): CacheState {
    if ops == [] then EMPTY else ApplyOp(AfterOps(ops[..|ops| - 1]), ops[|ops| - 1])
  }

  lemma OpKeepsIndexed(s: CacheState, op: CacheOp)
    requires Indexed(s)
    ensures Indexed(ApplyOp(s, op))
  {}

  lemma {:induction false} RunsStayIndexed(ops: seq<CacheOp>)
    ensures Indexed(AfterOps(ops))
  {
    if ops != [] {
      RunsStayIndexed(ops[..|ops| - 1]);
      OpKeepsIndexed(AfterOps(ops[..|ops| - 1]), ops[|ops| - 1]);
    }
  }

  lemma {:induction false} CollectedVersions(
    s: CacheState, hardTtl: nat, now: nat, host: string, versions: seq<Version>, allowStale: bool, cached: CachedBadge)
    ensures cached in CollectVersions(s, hardTtl, now, host, versions, allowStale)
            <==> exists v :: v in versions && Lookup(s, hardTtl, now, FqdnVersion(host, v), allowStale) == Some(cached)
  {
    if versions != [] {
      var last := |versions| - 1;
      CollectedVersions(s, hardTtl, now, host, versions[..last], allowStale, cached);
      assert versions == versions[..last] + [versions[last]];
    }
  }

  /** After any run, the host scan returns exactly what a scan of the whole store would. */
  lemma HostScanIsFullScan(ops: seq<CacheOp>, hardTtl: nat, now: nat, host: string, allowStale: bool, cached: CachedBadge)
    requires Lower(host) == host
    ensures var s := AfterOps(ops);
            cached in CollectForFqdn(s, hardTtl, now, host, allowStale)
            <==> exists v :: Lookup(s, hardTtl, now, FqdnVersion(host, v), allowStale) == Some(cached)
  {
    var s := AfterOps(ops);
    RunsStayIndexed(ops);
    if host in s.index {
      CollectedVersions(s, hardTtl, now, host, s.index[host], allowStale, cached);
    }
  }

  /**
   * The raw key variant may carry mixed case: an entry inserted under it into an empty cache is found
   * by the scan of its host exactly when the key was already folded.
   */
  lemma RawKeyFoundIff(host: string, version: Version, badge: Badge, now: nat, ttl: nat, hardTtl: nat)
    requires hardTtl > 0
    ensures var s := Insert(EMPTY, FqdnVersion(host, version), badge, now, ttl, {});
            var entry := CachedBadge(badge, now, ttl);
            CollectForFqdn(s, hardTtl, now, Lower(host), true) == if Lower(host) == host then [entry] else []
  {
    hide CollectVersions, Lower;
    var s := Insert(EMPTY, FqdnVersion(host, version), badge, now, ttl, {});
    assert s.index[Lower(host)] == [version];
    assert s.store == map[FqdnVersion(host, version) := CachedBadge(badge, now, ttl)];
    CollectOne(s, hardTtl, now, Lower(host), version, true);
  }

  lemma InvalidatedHostIsGone(s: CacheState, host: string)
    requires Indexed(s) && Lower(host) == host
    ensures NoEntries(InvalidateFqdn(s, host), host)
  {
    forall version ensures FqdnVersion(host, version) !in InvalidateFqdn(s, host).store {}
  }

  // ----- each write changes exactly what it should -----

  predicate OfHost(key: CacheKey, host: string) {
    key.FqdnVersion? && key.host == host
  }

  /** Invalidating a host removes its entries and no others. */
  lemma InvalidationIsExact(s: CacheState, host: string, key: CacheKey)
    requires Indexed(s) && Lower(host) == host
    ensures var s' := InvalidateFqdn(s, host);
            && (key in s'.store <==> key in s.store && !OfHost(key, host))
            && (key in s'.store ==> s'.store[key] == s.store[key])
            && host !in s'.index
  {
    InvalidatedHostIsGone(s, host);
    if OfHost(key, host) {
      assert FqdnVersion(host, key.version) !in InvalidateFqdn(s, host).store;
    }
  }

  /** Setting a host's versions keeps exactly its entries of those versions, and every other host's. */
  lemma SetVersionsIsExact(s: CacheState, host: string, versions: seq<Version>, key: CacheKey)
    requires Indexed(s) && Lower(host) == host
    ensures var s' := SetVersionIndex(s, host, versions);
            && (key in s'.store <==> key in s.store && (OfHost(key, host) ==> key.version in versions))
            && (key in s'.store ==> s'.store[key] == s.store[key])
            && host in s'.index && s'.index[host] == versions
  {
    if key in s.store && OfHost(key, host) {
      assert FqdnVersion(host, key.version) == key;
    }
  }

  /** Without eviction an inserted badge is found while fresh, and other entries are untouched. */
  lemma InsertedIsFound(
    s: CacheState, key: CacheKey, badge: Badge, now: nat, ttl: nat, hardTtl: nat, later: nat, other: CacheKey)
    requires Within(now, later, hardTtl)
    ensures var s' := Insert(s, key, badge, now, ttl, {});
            && Get(s', hardTtl, later, key)
               == (if Within(now, later, ttl) then Some(CachedBadge(badge, now, ttl)) else None)
            && (other != key ==> (other in s'.store <==> other in s.store))
            && (other != key && other in s.store ==> s'.store[other] == s.store[other])
  {}

  // ----- ages and lifetimes -----

  /** A lookup returns exactly an entry within its own lifetime and the hard one; without freshness only the latter counts. */
  lemma FoundExactly(s: CacheState, hardTtl: nat, now: nat, key: CacheKey, allowStale: bool, cached: CachedBadge)
    ensures Lookup(s, hardTtl, now, key, allowStale) == Some(cached)
            <==> key in s.store && s.store[key] == cached && Within(cached.fetchedAt, now, hardTtl)
                 && (allowStale || Within(cached.fetchedAt, now, cached.ttl))
  {}

  /** The hard lifetime in force is at least the default one. */
  lemma HardLifetime(config: CacheConfig)
    ensures Clamped(config).defaultTtl == config.defaultTtl
    ensures Clamped(config).hardTtl == if config.defaultTtl < config.hardTtl then config.hardTtl else config.defaultTtl
  {}

  // ----- the order of a collection -----

  /** The entries a host scan returns come in the order of the versions in the index. */
  lemma {:induction false} CollectJoins(
    s: CacheState, hardTtl: nat, now: nat, host: string, front: seq<Version>, back: seq<Version>, allowStale: bool)
    ensures CollectVersions(s, hardTtl, now, host, front + back, allowStale)
            == CollectVersions(s, hardTtl, now, host, front, allowStale) + CollectVersions(s, hardTtl, now, host, back, allowStale)
  {
    hide Lookup;
    if back == [] {
      assert front + back == front;
    } else {
      var last := |back| - 1;
      assert (front + back)[..|front + back| - 1] == front + back[..last];
      CollectJoins(s, hardTtl, now, host, front, back[..last], allowStale);
    }
  }

  lemma CollectOne(s: CacheState, hardTtl: nat, now: nat, host: string, version: Version, allowStale: bool)
    ensures CollectVersions(s, hardTtl, now, host, [version], allowStale)
            == var found := Lookup(s, hardTtl, now, FqdnVersion(host, version), allowStale);
               if found.Some? then [found.value] else []
  {
    assert [version][..0] == [];
    assert CollectVersions(s, hardTtl, now, host, [], allowStale) == [];
  }

  /** A newly stored version comes last in its host's index; a known one keeps its place. */
  lemma StoredVersionIsLast(s: CacheState, host: string, version: Version, badge: Badge, now: nat, ttl: nat, evicted: set<CacheKey>)
    ensures var index := Insert(s, FqdnVersion(host, version), badge, now, ttl, evicted).index;
            var known := if Lower(host) in s.index then s.index[Lower(host)] else [];
            && Lower(host) in index && index[Lower(host)] == (if version in known then known else known + [version])
            && (forall other :: other != Lower(host) ==> (other in index <==> other in s.index))
            && (forall other :: other != Lower(host) && other in index ==> index[other] == s.index[other])
  {}
}
