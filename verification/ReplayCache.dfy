/** The bounded single-use memory for proof identifiers, with its five-second expiry buckets. */
module ReplayCache {
  import opened Clock

  const BUCKET_WIDTH_SECS: int := 5
  const DEFAULT_REPLAY_MAX_ENTRIES: nat := 100_000

  /** Largest expiry whose bucket deadline still fits in 64 bits. */
  const LAST_EVICTABLE: int := I64_MAX - 3

  type Index = map<string, int>
  type Buckets = map<int, set<string>>

  datatype Answer = Stored | Replayed | Expired | Full

  function BucketOf(exp: int): int {
    exp / BUCKET_WIDTH_SECS
  }

  /** The instant at which a whole bucket counts as stale; the 64-bit product wraps past the top. */
  function Deadline(id: int): int {
    var end := (id + 1) * BUCKET_WIDTH_SECS;
    if end > I64_MAX then end - 0x1_0000_0000_0000_0000 else end
  }

  // ----- what each operation does to the index -----

  /** What eviction at `now` leaves in the index. */
  function Retained(index: Index, now: int): Index {
    map key | key in index && now < Deadline(BucketOf(index[key])) :: index[key]
  }

  function Without(index: Index, key: string): Index {
    map k | k in index && k != key :: index[k]
  }

  function Check(index: Index, cap: nat, now: int, key: string, exp: int): (Index, Answer) {
    var kept := Retained(index, now);
    if exp <= now then (kept, Expired)
    else if key in kept && kept[key] > now then (kept, Replayed)
    else
      var free := Without(kept, key);
      if |free| >= cap then (free, Full) else (free[key := exp], Stored)
  }

  /** The buckets are exactly the index grouped by bucket number, and none is empty. */
  ghost predicate Grouped(index: Index, buckets: Buckets) {
    && (forall id, key :: id in buckets && key in buckets[id] ==> key in index && BucketOf(index[key]) == id)
    && (forall key :: key in index ==> BucketOf(index[key]) in buckets && key in buckets[BucketOf(index[key])])
    && (forall id :: id in buckets ==> buckets[id] != {})
  }

  class MemoryReplayCache {
    var index: Index
    var buckets: Buckets
    const maxEntries: nat

    ghost predicate Valid()
      reads this
    {
      Grouped(index, buckets)
    }

    constructor (maxEntries: nat)
      ensures Valid() && index == map[]
      ensures this.maxEntries == if maxEntries == 0 then 100_000 else maxEntries
    {
      this.maxEntries := if maxEntries == 0 then DEFAULT_REPLAY_MAX_ENTRIES else maxEntries;
      index := map[];
      buckets := map[];
    }

    method Add(key: string, exp: int)
      requires Valid() && key !in index
      modifies this
      ensures Valid() && index == old(index)[key := exp]
    {
      var id := BucketOf(exp);
      index := index[key := exp];
      buckets := buckets[id := (if id in buckets then buckets[id] else {}) + {key}];
    }

    method Remove(key: string, exp: int)
      requires Valid() && key in index && index[key] == exp
      modifies this
      ensures Valid() && index == Without(old(index), key)
    {
      index := Without(index, key);
      var id := BucketOf(exp);
      if id in buckets {
        buckets := buckets[id := buckets[id] - {key}];
        assert forall k :: k in index && BucketOf(index[k]) == id ==> k in buckets[id];
        if buckets[id] == {} {
          buckets := buckets - {id};
        }
      }
    }

    method Evict(now: int)
      requires Valid()
      modifies this
      ensures Valid() && index == Retained(old(index), now)
    {
      var stale := set id | id in buckets && Deadline(id) <= now;
      while stale != {}
        invariant Valid()
        invariant stale == set id | id in buckets && Deadline(id) <= now
        invariant forall key :: key in index ==> key in old(index) && index[key] == old(index)[key]
        invariant forall key :: key in old(index) && now < Deadline(BucketOf(old(index)[key])) ==> key in index
      {
        var id :| id in stale;
        stale := stale - {id};
        DropBucket(id);
      }
      assert forall id :: id in buckets ==> id !in stale;
      assert forall key :: key in index ==> BucketOf(index[key]) in buckets;
    }

    /** Body of the eviction loop: one stale bucket and the index entries it names. */
    method DropBucket(id: int)
      requires Valid() && id in buckets
      modifies this
      ensures Valid() && buckets == old(buckets) - {id}
      ensures index == map key | key in old(index) && BucketOf(old(index)[key]) != id :: old(index)[key]
    {
      var keys := buckets[id];
      buckets := buckets - {id};
      while keys != {}
        invariant keys <= old(buckets)[id] && buckets == old(buckets) - {id}
        invariant forall key :: key in index <==> key in old(index) && (BucketOf(old(index)[key]) != id || key in keys)
        invariant forall key :: key in index ==> index[key] == old(index)[key]
      {
        var key :| key in keys;
        keys := keys - {key};
        if key in index && BucketOf(index[key]) == id {
          index := Without(index, key);
        }
      }
    }

    /** One atomic step under the lock; `now` is the clock reading taken inside it. */
    method CheckAndStore(key: string, exp: int, now: int) returns (answer: Answer)
      requires Valid()
      modifies this
      ensures Valid() && (index, answer) == Check(old(index), maxEntries, now, key, exp)
    {
      Evict(now);
      if exp <= now {
        return Expired;
      }
      if key in index {
        if index[key] > now {
          return Replayed;
        }
        Remove(key, index[key]);
      }
      assert index == Without(Retained(old(index), now), key);
      if |index| >= maxEntries {
        return Full;
      }
      Add(key, exp);
      return Stored;
    }

    method EvictExpired(now: int)
      requires Valid()
      modifies this
      ensures Valid() && index == Retained(old(index), now)
    {
      Evict(now);
    }
  }

  // ----- bucket arithmetic -----

  /**
   * Eviction is exact to one bucket width up to `LAST_EVICTABLE`, negative times included; above it
   * the deadline wraps to the bottom of the range.
   */
  lemma DeadlineExact(exp: int)
    requires IsI64(exp)
    ensures exp <= LAST_EVICTABLE ==> exp < Deadline(BucketOf(exp)) <= exp + BUCKET_WIDTH_SECS
    ensures exp > LAST_EVICTABLE ==> Deadline(BucketOf(exp)) == I64_MIN + 2
  {
    var top := (BucketOf(exp) + 1) * BUCKET_WIDTH_SECS;
    assert top == exp - exp % 5 + 5;
    if exp <= LAST_EVICTABLE {
      assert top <= I64_MAX;
      assert I64_MIN <= top;
    } else {
      assert top == I64_MAX + 3;
    }
  }

  /** Until when a stored expiry refuses its key: until it passes, unless the wrapped deadline drops it. */
  function HeldUntil(exp: int): int {
    if exp <= LAST_EVICTABLE then exp else I64_MIN + 2
  }

  lemma EvictionKeepsLive(index: Index, now: int, key: string)
    requires key in index && IsI64(index[key])
    ensures now < HeldUntil(index[key]) ==> key in Retained(index, now)
    ensures key in Retained(index, now) && now < index[key] ==> now < HeldUntil(index[key])
    ensures key in Retained(index, now) ==> now - BUCKET_WIDTH_SECS < index[key]
  {
    DeadlineExact(index[key]);
  }

  lemma StoredOnceMore(index: Index, cap: nat, now: int, key: string, exp: int)
    requires IsI64(exp) && Check(index, cap, now, key, exp).1 == Stored && HeldUntil(exp) <= now < exp
    ensures var after := Check(index, cap, now, key, exp).0; Check(after, cap, now, key, exp) == (after, Stored)
  {
    DeadlineExact(exp);
    var free := Without(Retained(index, now), key);
    var after := free[key := exp];
    assert Retained(after, now) == free;
    assert Without(free, key) == free;
  }

  /**
   * Whatever the cache holds, a proof stored now and presented again at the same instant is refused
   * exactly when its expiry is at most `LAST_EVICTABLE`: above that, the wrapped deadline drops it while
   * it is still live, and it is stored once more.
   */
  lemma ReuseRefusedIff(index: Index, cap: nat, now: int, key: string, exp: int)
    requires IsI64(exp) && I64_MIN + 2 <= now && Check(index, cap, now, key, exp).1 == Stored
    ensures var after := Check(index, cap, now, key, exp).0;
            Check(after, cap, now, key, exp).1 == if exp <= LAST_EVICTABLE then Replayed else Stored
  {
    if exp <= LAST_EVICTABLE {
      EvictionKeepsLive(Check(index, cap, now, key, exp).0, now, key);
    } else {
      StoredOnceMore(index, cap, now, key, exp);
    }
  }

  // ----- whole runs -----

  /** One atomic use of the shared cache; an interleaving of callers is a sequence of these. */
  datatype Op =
    | CheckAndStore(now: int, key: string, exp: int)
    | EvictExpired(now: int)

  function Apply(index: Index, cap: nat, op: Op): Index {
    match op
    case CheckAndStore(now, key, exp) => Check(index, cap, now, key, exp).0
    case EvictExpired(now) => Retained(index, now)
  }

  /** The index after the first `n` operations of a run that starts from an empty cache. */
  function IndexAt(cap: nat, ops: seq<Op>, n: nat): Index
    requires n <= |ops|
  {
    if n == 0 then map[] else Apply(IndexAt(cap, ops, n - 1), cap, ops[n - 1])
  }

  function AnswerAt(cap: nat, ops: seq<Op>, i: nat): Answer
    requires i < |ops| && ops[i].CheckAndStore?
  {
    Check(IndexAt(cap, ops, i), cap, ops[i].now, ops[i].key, ops[i].exp).1
  }

  predicate CommittedAt(cap: nat, ops: seq<Op>, i: nat) {
    i < |ops| && ops[i].CheckAndStore? && AnswerAt(cap, ops, i) == Stored
  }

  /** The clock never goes back, and every expiry is a 64-bit number. */
  ghost predicate OrderlyRun(ops: seq<Op>) {
    && (forall i, j :: 0 <= i < j < |ops| ==> ops[i].now <= ops[j].now)
    && (forall i :: 0 <= i < |ops| && ops[i].CheckAndStore? ==> IsI64(ops[i].exp))
  }

  /** An entry after an operation was there before, or is what the operation committed. */
  lemma ApplyEntry(index: Index, cap: nat, op: Op, key: string)
    requires key in Apply(index, cap, op)
    ensures (key in index && index[key] == Apply(index, cap, op)[key])
            || (op.CheckAndStore? && op.key == key && op.exp == Apply(index, cap, op)[key]
                && Check(index, cap, op.now, op.key, op.exp).1 == Stored)
  {}

  /** Every index entry is the expiry of a commit made earlier in the run. */
  lemma {:induction false} EntriesAreCommits(cap: nat, ops: seq<Op>, n: nat, key: string) returns (j: nat)
    requires n <= |ops| && key in IndexAt(cap, ops, n)
    ensures j < n && CommittedAt(cap, ops, j)
    ensures ops[j].key == key && ops[j].exp == IndexAt(cap, ops, n)[key]
  {
    hide Apply, Check;
    var before, expiry := IndexAt(cap, ops, n - 1), IndexAt(cap, ops, n)[key];
    ApplyEntry(before, cap, ops[n - 1], key);
    if key in before && before[key] == expiry {
      j := EntriesAreCommits(cap, ops, n - 1, key);
    } else {
      j := n - 1;
    }
  }

  /** No operation disturbs an entry that still refuses its key. */
  lemma HeldEntryStays(index: Index, cap: nat, op: Op, key: string)
    requires key in index && IsI64(index[key]) && op.now < HeldUntil(index[key])
    ensures key in Apply(index, cap, op) && Apply(index, cap, op)[key] == index[key]
  {
    EvictionKeepsLive(index, op.now, key);
  }

  /** A commit stays in the index, under its own expiry, for as long as it is held. */
  lemma {:induction false} HeldCommitsStay(cap: nat, ops: seq<Op>, n: nat, j: nat, t: int)
    requires OrderlyRun(ops) && j < n <= |ops| && CommittedAt(cap, ops, j)
    requires ops[n - 1].now <= t < HeldUntil(ops[j].exp)
    ensures ops[j].key in IndexAt(cap, ops, n) && IndexAt(cap, ops, n)[ops[j].key] == ops[j].exp
  {
    if j < n - 1 {
      hide Apply, Check, HeldUntil;
      HeldCommitsStay(cap, ops, n - 1, j, t);
      HeldEntryStays(IndexAt(cap, ops, n - 1), cap, ops[n - 1], ops[j].key);
    }
  }

  /** A commit whose own expiry is in range stays recorded until that expiry, whatever other expiries the run has. */
  lemma LiveCommitsStay(cap: nat, ops: seq<Op>, n: nat, j: nat, t: int)
    requires OrderlyRun(ops) && j < n <= |ops| && CommittedAt(cap, ops, j) && ops[j].exp <= LAST_EVICTABLE
    requires ops[n - 1].now <= t < ops[j].exp
    ensures ops[j].key in IndexAt(cap, ops, n) && IndexAt(cap, ops, n)[ops[j].key] == ops[j].exp
  {
    HeldCommitsStay(cap, ops, n, j, t);
  }

  /** An earlier commit of the same key that an unbounded memory would still refuse at operation `i`. */
  ghost predicate Remembered(cap: nat, ops: seq<Op>, i: nat, j: nat)
    requires i < |ops| && ops[i].CheckAndStore?
  {
    j < i && CommittedAt(cap, ops, j) && ops[j].key == ops[i].key && ops[j].exp > ops[i].now
  }

  /** The part of it that the bounded memory still refuses. */
  ghost predicate Held(cap: nat, ops: seq<Op>, i: nat, j: nat)
    requires i < |ops| && ops[i].CheckAndStore?
  {
    Remembered(cap, ops, i, j) && HeldUntil(ops[j].exp) > ops[i].now
  }

  /** The exact answers, in every run: "replayed" exactly when some earlier commit of the key is still held. */
  lemma AnswersExact(cap: nat, ops: seq<Op>, i: nat)
    requires OrderlyRun(ops) && i < |ops| && ops[i].CheckAndStore?
    ensures AnswerAt(cap, ops, i) == Expired <==> ops[i].exp <= ops[i].now
    ensures AnswerAt(cap, ops, i) == Replayed
            <==> ops[i].exp > ops[i].now && exists j: nat :: Held(cap, ops, i, j)
  {
    var index, op := IndexAt(cap, ops, i), ops[i];
    if AnswerAt(cap, ops, i) == Replayed {
      var j := EntriesAreCommits(cap, ops, i, op.key);
      EvictionKeepsLive(index, op.now, op.key);
      assert Held(cap, ops, i, j);
    }
    if j: nat :| Held(cap, ops, i, j) {
      HeldCommitsStay(cap, ops, i, j, op.now);
      EvictionKeepsLive(index, op.now, op.key);
    }
  }

  /**
   * Refinement of unbounded memory: whatever was evicted in between, and whatever expiries other keys
   * carry, an operation is answered "expired" exactly when its window has passed, and otherwise
   * "replayed" exactly when some earlier commit of the key is still live. It is enough that the commits
   * of this key have expiries in range; one of them above it is forgotten at once.
   */
  lemma RefinesUnboundedMemory(cap: nat, ops: seq<Op>, i: nat)
    requires OrderlyRun(ops) && i < |ops| && ops[i].CheckAndStore?
    ensures AnswerAt(cap, ops, i) == Expired <==> ops[i].exp <= ops[i].now
    ensures (forall j: nat :: Remembered(cap, ops, i, j) ==> ops[j].exp <= LAST_EVICTABLE) ==>
              (AnswerAt(cap, ops, i) == Replayed
               <==> ops[i].exp > ops[i].now && exists j: nat :: Remembered(cap, ops, i, j))
    ensures ops[i].now >= I64_MIN + 2 ==>
              (AnswerAt(cap, ops, i) == Replayed
               <==> ops[i].exp > ops[i].now && exists j: nat :: Remembered(cap, ops, i, j) && ops[j].exp <= LAST_EVICTABLE)
  {
    hide AnswerAt;
    AnswersExact(cap, ops, i);
    forall j: nat | Remembered(cap, ops, i, j) && ops[j].exp <= LAST_EVICTABLE ensures Held(cap, ops, i, j) {}
  }

  /**
   * Single use over whole runs: two commits of one key are separated by the first one's expiry if that is
   * in range, and the second carries a strictly later expiry. Nothing is asked of any other operation.
   */
  lemma CommitsOfOneKeyAreDisjoint(cap: nat, ops: seq<Op>, i: nat, j: nat)
    requires OrderlyRun(ops) && i < j
    requires CommittedAt(cap, ops, i) && CommittedAt(cap, ops, j) && ops[i].key == ops[j].key
    requires ops[i].exp <= LAST_EVICTABLE
    ensures ops[i].exp <= ops[j].now < ops[j].exp
  {
    AnswersExact(cap, ops, j);
    assert !Held(cap, ops, j, i);
  }

  // ----- capacity -----

  lemma SubsetCard<A>(a: set<A>, b: set<A>)
    requires a <= b
    ensures |a| <= |b|
  {
    assert |b| == |a| + |b - a|;
  }

  lemma ApplyWithinCapacity(index: Index, cap: nat, op: Op)
    requires |index| <= cap
    ensures |Apply(index, cap, op)| <= cap
  {
    var kept := Retained(index, op.now);
    assert |kept| <= cap by {
      SubsetCard(kept.Keys, index.Keys);
    }
    if op.CheckAndStore? {
      var free := Without(kept, op.key);
      var stored := free[op.key := op.exp];
      assert |free| <= |kept| by {
        SubsetCard(free.Keys, kept.Keys);
      }
      assert |stored| <= |free| + 1 by {
        assert stored.Keys == free.Keys + {op.key};
      }
    }
  }

  lemma {:induction false} NeverOverCapacity(cap: nat, ops: seq<Op>, n: nat)
    requires n <= |ops|
    ensures |IndexAt(cap, ops, n)| <= cap
  {
    if n > 0 {
      NeverOverCapacity(cap, ops, n - 1);
      ApplyWithinCapacity(IndexAt(cap, ops, n - 1), cap, ops[n - 1]);
    }
  }

  /** The commits in the half-open window of `width` seconds that ends at operation `i`. */
  ghost function WindowCommits(cap: nat, ops: seq<Op>, i: nat, width: int): set<nat>
    requires i < |ops|
  {
    set j: nat | 0 <= j < i && CommittedAt(cap, ops, j) && ops[i].now - width < ops[j].now :: j
  }

  /** Keys that each name an operation of `window` are no more than the window holds. */
  lemma {:induction false} KeysWithinWindow(keys: set<string>, window: set<nat>, ops: seq<Op>)
    requires forall j :: j in window ==> j < |ops| && ops[j].CheckAndStore?
    requires forall key :: key in keys ==> exists j :: j in window && ops[j].key == key
    ensures |keys| <= |window|
  {
    if key :| key in keys {
      var j :| j in window && ops[j].key == key;
      forall other | other in keys - {key} ensures exists k :: k in window - {j} && ops[k].key == other {
        var k :| k in window && ops[k].key == other;
        assert k in window - {j};
      }
      KeysWithinWindow(keys - {key}, window - {j}, ops);
    }
  }

  lemma FullMeansCrowded(index: Index, cap: nat, now: int, key: string, exp: int)
    requires Check(index, cap, now, key, exp).1 == Full
    ensures |Retained(index, now)| >= cap
  {
    SubsetCard(Without(Retained(index, now), key).Keys, Retained(index, now).Keys);
  }

  lemma RetainedWasCommittedRecently(cap: nat, ops: seq<Op>, life: int, i: nat, key: string) returns (j: nat)
    requires OrderlyRun(ops) && i < |ops| && key in Retained(IndexAt(cap, ops, i), ops[i].now)
    requires forall j: nat :: j < i && CommittedAt(cap, ops, j) ==> ops[j].exp <= ops[j].now + life
    ensures j in WindowCommits(cap, ops, i, life + BUCKET_WIDTH_SECS) && ops[j].key == key
  {
    j := EntriesAreCommits(cap, ops, i, key);
    EvictionKeepsLive(IndexAt(cap, ops, i), ops[i].now, key);
  }

  /**
   * Sizing: when no commit outlives its own commit time by more than `life` seconds and every window
   * of `life + 5` seconds holds fewer commits than the capacity, no operation is refused for capacity.
   */
  lemma SizedRunNeverFull(cap: nat, ops: seq<Op>, life: int, i: nat)
    requires OrderlyRun(ops) && i < |ops| && ops[i].CheckAndStore?
    requires forall j: nat :: j < i && CommittedAt(cap, ops, j) ==> ops[j].exp <= ops[j].now + life
    requires |WindowCommits(cap, ops, i, life + BUCKET_WIDTH_SECS)| < cap
    ensures AnswerAt(cap, ops, i) != Full
  {
    var keys := Retained(IndexAt(cap, ops, i), ops[i].now).Keys;
    var window := WindowCommits(cap, ops, i, life + BUCKET_WIDTH_SECS);
    forall key | key in keys ensures exists j :: j in window && ops[j].key == key {
      var j := RetainedWasCommittedRecently(cap, ops, life, i, key);
    }
    KeysWithinWindow(keys, window, ops);
    if AnswerAt(cap, ops, i) == Full {
      FullMeansCrowded(IndexAt(cap, ops, i), cap, ops[i].now, ops[i].key, ops[i].exp);
    }
  }
}
