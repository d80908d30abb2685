/** How large the single-use memory must be: exact windows and the exact capacity for a steady load. */
module ReplaySizing {
  import opened Clock
  import opened ReplayCache

  // ----- runs that are never refused -----

  /** No operation of the run is refused for capacity. */
  ghost predicate NeverFull(cap: nat, ops: seq<Op>) {
    forall i: nat :: i < |ops| && ops[i].CheckAndStore? ==> AnswerAt(cap, ops, i) != Full
  }

  /** No commit outlives its own commit time by more than `life` seconds. */
  ghost predicate ShortLived(cap: nat, ops: seq<Op>, life: int) {
    forall j: nat :: CommittedAt(cap, ops, j) ==> ops[j].exp <= ops[j].now + life
  }

  /** At every operation, the window of `width` seconds that ends there holds fewer commits than the capacity. */
  ghost predicate Sparse(cap: nat, ops: seq<Op>, width: int) {
    forall i: nat :: i < |ops| ==> |WindowCommits(cap, ops, i, width)| < cap
  }

  lemma SparserWindows(cap: nat, ops: seq<Op>, narrow: int, wide: int)
    requires narrow <= wide && Sparse(cap, ops, wide)
    ensures Sparse(cap, ops, narrow)
  {
    forall i: nat | i < |ops| ensures |WindowCommits(cap, ops, i, narrow)| < cap {
      SubsetCard(WindowCommits(cap, ops, i, narrow), WindowCommits(cap, ops, i, wide));
    }
  }

  lemma SparseRunNeverFull(cap: nat, ops: seq<Op>, life: int, width: int)
    requires OrderlyRun(ops) && ShortLived(cap, ops, life)
    requires width >= life + BUCKET_WIDTH_SECS && Sparse(cap, ops, width)
    ensures NeverFull(cap, ops)
  {
    SparserWindows(cap, ops, life + BUCKET_WIDTH_SECS, width);
    forall i: nat | i < |ops| && ops[i].CheckAndStore? ensures AnswerAt(cap, ops, i) != Full {
      SizedRunNeverFull(cap, ops, life, i);
    }
  }

  // ----- the window cannot be shorter -----

  /**
   * One commit that expires at the start of a bucket, then, in the last second of that bucket, as many
   * operations on further keys as the cache has entries.
   */
  ghost predicate TightLoad(cap: nat, ops: seq<Op>, life: int, start: int) {
    && |ops| == cap + 1
    && ops[0].CheckAndStore? && ops[0].now == start && ops[0].exp == start + life
    && (forall i :: 0 < i <= cap ==>
          ops[i].CheckAndStore? && ops[i].now == start + life + 4 && ops[i].exp == start + life + 4 + life)
    && (forall i, j :: 0 <= i < j <= cap ==> ops[i].key != ops[j].key)
  }

  /** The index holds one entry for each of the first `n` operations, all of them live buckets at `now`. */
  ghost predicate Crowded(ops: seq<Op>, n: nat, now: int, index: Index)
    requires n <= |ops| && forall j :: 0 <= j < |ops| ==> ops[j].CheckAndStore?
  {
    && |index| == n
    && (forall j :: n <= j < |ops| ==> ops[j].key !in index)
    && (forall key :: key in index ==> I64_MIN <= index[key] <= LAST_EVICTABLE && now < Deadline(BucketOf(index[key])))
  }

  lemma CrowdedStep(cap: nat, ops: seq<Op>, n: nat, now: int, index: Index)
    requires forall j :: 0 <= j < |ops| ==> ops[j].CheckAndStore?
    requires n < |ops| && ops[n].now <= now && ops[n].now < ops[n].exp
    requires forall j :: n < j < |ops| ==> ops[j].key != ops[n].key
    requires I64_MIN <= ops[n].exp <= LAST_EVICTABLE && now < Deadline(BucketOf(ops[n].exp)) && Crowded(ops, n, now, index)
    ensures var (after, answer) := Check(index, cap, ops[n].now, ops[n].key, ops[n].exp);
            if n >= cap then answer == Full else answer == Stored && Crowded(ops, n + 1, now, after)
  {
    var op := ops[n];
    assert Without(Retained(index, op.now), op.key) == index;
    if n < cap {
      assert index[op.key := op.exp].Keys == index.Keys + {op.key};
    }
  }

  lemma {:induction false} TightLoadFills(cap: nat, ops: seq<Op>, life: int, start: int, n: nat)
    requires TightLoad(cap, ops, life, start) && n <= cap && life > 0 && (start + life) % 5 == 0
    requires I64_MIN <= start + life && start + life + 4 + life <= LAST_EVICTABLE
    ensures Crowded(ops, n, start + life + 4, IndexAt(cap, ops, n))
    ensures AnswerAt(cap, ops, n) == if n < cap then Stored else Full
    ensures n < cap ==> Crowded(ops, n + 1, start + life + 4, IndexAt(cap, ops, n + 1))
  {
    hide Check, Crowded, Retained, Without;
    if n > 0 {
      TightLoadFills(cap, ops, life, start, n - 1);
    } else {
      EmptyIsCrowded(ops, start + life + 4);
    }
    DeadlineExact(ops[n].exp);
    assert n == 0 ==> Deadline(BucketOf(ops[0].exp)) == start + life + 5;
    CrowdedStep(cap, ops, n, start + life + 4, IndexAt(cap, ops, n));
  }

  lemma EmptyIsCrowded(ops: seq<Op>, now: int)
    requires forall j :: 0 <= j < |ops| ==> ops[j].CheckAndStore?
    ensures Crowded(ops, 0, now, map[])
  {}

  function Range(lo: nat, hi: nat): (r: set<nat>)
    requires lo <= hi
    ensures |r| == hi - lo && forall j: nat :: j in r <==> lo <= j < hi
  {
    if lo == hi then {} else Range(lo, hi - 1) + {hi - 1}
  }

  lemma TightLoadIsOrderly(cap: nat, ops: seq<Op>, life: int, start: int)
    requires TightLoad(cap, ops, life, start) && life > 0
    requires I64_MIN <= start + life && start + life + 4 + life <= LAST_EVICTABLE
    ensures OrderlyRun(ops) && ShortLived(cap, ops, life)
  {
    hide AnswerAt;
  }

  lemma TightLoadIsSparse(cap: nat, ops: seq<Op>, life: int, start: int, i: nat)
    requires TightLoad(cap, ops, life, start) && cap > 0 && life > 0 && i < |ops|
    ensures |WindowCommits(cap, ops, i, life + 4)| < cap
  {
    hide CommittedAt;
    var window := WindowCommits(cap, ops, i, life + 4);
    if i == 0 {
      assert window == {};
    } else {
      assert 0 !in window;
      SubsetCard(window, Range(1, i));
    }
  }

  /** The load is sparse in windows one second short of the bound, and still refused. */
  lemma TightLoadIsRefused(cap: nat, ops: seq<Op>, life: int, start: int)
    requires TightLoad(cap, ops, life, start) && cap > 0 && life > 0 && (start + life) % 5 == 0
    requires I64_MIN <= start + life && start + life + 4 + life <= LAST_EVICTABLE
    ensures OrderlyRun(ops) && ShortLived(cap, ops, life) && Sparse(cap, ops, life + 4) && !NeverFull(cap, ops)
  {
    hide WindowCommits, OrderlyRun, ShortLived, Crowded, AnswerAt, IndexAt;
    TightLoadIsOrderly(cap, ops, life, start);
    TightLoadFills(cap, ops, life, start, cap);
    assert !NeverFull(cap, ops);
    var width := life + 4;
    forall i: nat | i < |ops| ensures |WindowCommits(cap, ops, i, width)| < cap {
      TightLoadIsSparse(cap, ops, life, start, i);
    }
  }

  lemma TightLoadFailsBelow(cap: nat, ops: seq<Op>, life: int, start: int, width: int)
    requires TightLoad(cap, ops, life, start) && cap > 0 && life > 0 && (start + life) % 5 == 0
    requires I64_MIN <= start + life && start + life + 4 + life <= LAST_EVICTABLE && width <= life + 4
    ensures OrderlyRun(ops) && ShortLived(cap, ops, life) && Sparse(cap, ops, width) && !NeverFull(cap, ops)
  {
    TightLoadIsRefused(cap, ops, life, start);
    hide Sparse, NeverFull, TightLoad, OrderlyRun, ShortLived;
    SparserWindows(cap, ops, width, life + 4);
  }

  /** As many distinct keys as wanted. */
  function TightKey(n: nat): string {
    seq(n, _ => 'k')
  }

  function TightRun(cap: nat, life: int): (ops: seq<Op>)
    ensures |ops| == cap + 1
  {
    seq(cap + 1, i requires 0 <= i <= cap =>
      if i == 0 then CheckAndStore(5 - life, TightKey(0), 5) else CheckAndStore(9, TightKey(i), 9 + life))
  }

  lemma ShorterWindowFails(cap: nat, life: int, width: int) returns (ops: seq<Op>)
    requires cap > 0 && 0 < life <= LAST_EVICTABLE - 9 && width < life + BUCKET_WIDTH_SECS
    ensures OrderlyRun(ops) && ShortLived(cap, ops, life) && Sparse(cap, ops, width) && !NeverFull(cap, ops)
  {
    hide OrderlyRun, ShortLived, Sparse, NeverFull;
    ops := TightRun(cap, life);
    assert forall i, j :: 0 <= i < j <= cap ==> |ops[i].key| != |ops[j].key|;
    TightLoadFailsBelow(cap, ops, life, 5 - life, width);
  }

  /**
   * The sizing window is exact: runs whose windows of `width` seconds each hold fewer commits than the
   * capacity are never refused for capacity if and only if the width is at least the lifetime plus five.
   */
  lemma SizingWindowExact(cap: nat, life: int, width: int)
    requires cap > 0 && 0 < life <= LAST_EVICTABLE - 9
    ensures (forall ops :: OrderlyRun(ops) && ShortLived(cap, ops, life) && Sparse(cap, ops, width) ==> NeverFull(cap, ops))
            <==> width >= life + BUCKET_WIDTH_SECS
  {
    hide OrderlyRun, ShortLived, Sparse, NeverFull;
    if width >= life + BUCKET_WIDTH_SECS {
      forall ops | OrderlyRun(ops) && ShortLived(cap, ops, life) && Sparse(cap, ops, width) ensures NeverFull(cap, ops) {
        SparseRunNeverFull(cap, ops, life, width);
      }
    } else {
      var ops := ShorterWindowFails(cap, life, width);
    }
  }

  /** The commits of `width` consecutive seconds, wherever they begin. */
  ghost function CommitsFrom(cap: nat, ops: seq<Op>, start: int, width: int): set<nat> {
    set j: nat | 0 <= j < |ops| && CommittedAt(cap, ops, j) && start <= ops[j].now < start + width :: j
  }

  ghost predicate SparseEverywhere(cap: nat, ops: seq<Op>, width: int) {
    forall start: int :: |CommitsFrom(cap, ops, start, width)| < cap
  }

  lemma EverywhereIsSparse(cap: nat, ops: seq<Op>, width: int)
    requires OrderlyRun(ops) && SparseEverywhere(cap, ops, width)
    ensures Sparse(cap, ops, width)
  {
    forall i: nat | i < |ops| ensures |WindowCommits(cap, ops, i, width)| < cap {
      var start := ops[i].now - width + 1;
      SubsetCard(WindowCommits(cap, ops, i, width), CommitsFrom(cap, ops, start, width));
      assert |CommitsFrom(cap, ops, start, width)| < cap;
    }
  }

  /** A window that holds the first commit ends before the others, and none holds the refused one. */
  lemma TightWindow(cap: nat, ops: seq<Op>, life: int, start: int, from: int, width: int)
    requires TightLoad(cap, ops, life, start) && cap > 1 && width <= life + 4 && !CommittedAt(cap, ops, cap)
    ensures |CommitsFrom(cap, ops, from, width)| < cap
  {
    hide CommittedAt;
    var commits := CommitsFrom(cap, ops, from, width);
    if 0 in commits {
      assert forall j :: j in commits ==> j == 0;
      SubsetCard(commits, {0});
    } else {
      SubsetCard(commits, Range(1, cap));
    }
  }

  lemma TightLoadIsSparseEverywhere(cap: nat, ops: seq<Op>, life: int, start: int, width: int)
    requires TightLoad(cap, ops, life, start) && cap > 1 && life > 0 && (start + life) % 5 == 0
    requires I64_MIN <= start + life && start + life + 4 + life <= LAST_EVICTABLE && width <= life + 4
    ensures SparseEverywhere(cap, ops, width)
  {
    hide CommitsFrom, Crowded, TightLoad, Deadline;
    TightLoadFills(cap, ops, life, start, cap);
    assert !CommittedAt(cap, ops, cap);
    forall from: int ensures |CommitsFrom(cap, ops, from, width)| < cap {
      TightWindow(cap, ops, life, start, from, width);
    }
  }

  /** The same bound for windows that begin anywhere, for a cache that holds more than one entry. */
  lemma SizingWindowExactEverywhere(cap: nat, life: int, width: int)
    requires cap > 1 && 0 < life <= LAST_EVICTABLE - 9
    ensures (forall ops :: OrderlyRun(ops) && ShortLived(cap, ops, life) && SparseEverywhere(cap, ops, width) ==>
               NeverFull(cap, ops))
            <==> width >= life + BUCKET_WIDTH_SECS
  {
    hide OrderlyRun, ShortLived, Sparse, SparseEverywhere, NeverFull;
    if width >= life + BUCKET_WIDTH_SECS {
      forall ops | OrderlyRun(ops) && ShortLived(cap, ops, life) && SparseEverywhere(cap, ops, width)
        ensures NeverFull(cap, ops)
      {
        EverywhereIsSparse(cap, ops, width);
        SparseRunNeverFull(cap, ops, life, width);
      }
    } else {
      var ops := TightRun(cap, life);
      assert forall i, j :: 0 <= i < j <= cap ==> |ops[i].key| != |ops[j].key|;
      TightLoadIsRefused(cap, ops, life, 5 - life);
      TightLoadIsSparseEverywhere(cap, ops, life, 5 - life, width);
    }
  }

  // ----- a steady load -----

  /** `rate` new keys per second from second `start` on, each kept for `life` seconds. */
  ghost predicate SteadyLoad(start: int, life: nat, rate: nat, ops: seq<Op>)
    requires rate > 0
  {
    && (forall i :: 0 <= i < |ops| ==>
          ops[i].CheckAndStore? && ops[i].now == start + i / rate && ops[i].exp == start + i / rate + life)
    && (forall i, j :: 0 <= i < j < |ops| ==> ops[i].key != ops[j].key)
  }

  /** The first second whose records are still resident `t` whole seconds after the first. */
  function OldestSecond(start: int, life: nat, t: nat): nat {
    var first := t - (start + t) % 5 - life;
    if first < 0 then 0 else first
  }

  /** All expiries of a load of `n` keys are in range. */
  predicate InRange(start: int, life: nat, n: nat) {
    I64_MIN <= start && start + n + life <= LAST_EVICTABLE
  }

  /** The index is exactly the records of operations `lo` to `n`. */
  ghost predicate Holds(ops: seq<Op>, lo: nat, n: nat, index: Index)
    requires n <= |ops| && forall i :: 0 <= i < |ops| ==> ops[i].CheckAndStore?
  {
    && (forall j :: lo <= j < n ==> ops[j].key in index && index[ops[j].key] == ops[j].exp)
    && (forall key :: key in index ==> exists j :: lo <= j < n && ops[j].key == key)
  }

  ghost predicate DistinctKeys(ops: seq<Op>) {
    && (forall i :: 0 <= i < |ops| ==> ops[i].CheckAndStore?)
    && (forall i, j :: 0 <= i < j < |ops| ==> ops[i].key != ops[j].key)
  }

  lemma HoldsAllButLast(ops: seq<Op>, lo: nat, n: nat, index: Index)
    requires DistinctKeys(ops) && lo < n <= |ops| && Holds(ops, lo, n, index)
    ensures Holds(ops, lo, n - 1, Without(index, ops[n - 1].key)) && ops[n - 1].key in index
  {
    var rest := Without(index, ops[n - 1].key);
    forall k | k in rest ensures exists j :: lo <= j < n - 1 && ops[j].key == k {
      var j :| lo <= j < n && ops[j].key == k;
      assert j != n - 1;
    }
  }

  lemma WithoutCard(index: Index, key: string)
    requires key in index
    ensures |index| == |Without(index, key)| + 1
  {
    assert index.Keys == Without(index, key).Keys + {key};
  }

  lemma {:induction false} HoldsCard(ops: seq<Op>, lo: nat, n: nat, index: Index)
    requires DistinctKeys(ops) && lo <= n <= |ops| && Holds(ops, lo, n, index)
    ensures |index| == n - lo
    decreases n
  {
    if lo == n {
      assert index == map[];
    } else {
      hide Holds, Without;
      HoldsAllButLast(ops, lo, n, index);
      HoldsCard(ops, lo, n - 1, Without(index, ops[n - 1].key));
      WithoutCard(index, ops[n - 1].key);
    }
  }

  lemma LiveBucket(exp: int, now: int)
    requires I64_MIN <= exp <= LAST_EVICTABLE
    ensures now < Deadline(BucketOf(exp)) <==> now - now % 5 <= exp
  {
    DeadlineExact(exp);
    assert Deadline(BucketOf(exp)) == exp - exp % 5 + 5;
  }

  lemma DivAtLeast(j: nat, rate: nat, c: nat)
    requires rate > 0
    ensures j / rate >= c <==> j >= rate * c
  {
    var q, r := j / rate, j % rate;
    assert j == rate * q + r;
    if q >= c {
      assert rate * q >= rate * c;
    } else {
      assert rate * (q + 1) <= rate * c;
    }
  }

  /** Where the records of a second begin, and that no record of that second is later than operation `n`. */
  function OldestRecord(start: int, life: nat, rate: nat, n: nat): (lo: nat)
    requires rate > 0
  {
    rate * OldestSecond(start, life, n / rate)
  }

  lemma OldestIsPast(start: int, life: nat, rate: nat, n: nat)
    requires rate > 0
    ensures OldestRecord(start, life, rate, n) <= n
    ensures n > 0 ==> OldestRecord(start, life, rate, n - 1) <= OldestRecord(start, life, rate, n)
  {
    hide OldestSecond;
    var newer := OldestSecond(start, life, n / rate);
    OldestGrows(start, life, n / rate, n / rate);
    DivAtLeast(n, rate, newer);
    if n > 0 {
      DivGrows(n - 1, n, rate);
      OldestGrows(start, life, (n - 1) / rate, n / rate);
      MulGrows(rate, OldestSecond(start, life, (n - 1) / rate), newer);
    }
  }

  lemma OldestGrows(start: int, life: nat, s: nat, t: nat)
    requires s <= t
    ensures OldestSecond(start, life, s) <= OldestSecond(start, life, t) <= t
  {}

  lemma DivGrows(a: nat, b: nat, rate: nat)
    requires rate > 0 && a <= b
    ensures a / rate <= b / rate
  {
    DivAtLeast(a, rate, a / rate);
    DivAtLeast(b, rate, a / rate);
  }

  lemma MulGrows(rate: nat, a: nat, b: nat)
    requires a <= b
    ensures rate * a <= rate * b
  {}

  lemma SecondIsResident(start: int, life: nat, s: nat, t: nat)
    ensures (start + t) - (start + t) % 5 <= start + s + life <==> s >= OldestSecond(start, life, t)
  {}

  lemma StillResident(start: int, life: nat, rate: nat, ops: seq<Op>, n: nat, j: nat)
    requires rate > 0 && SteadyLoad(start, life, rate, ops) && j < n < |ops| && InRange(start, life, |ops|)
    ensures ops[n].now < Deadline(BucketOf(ops[j].exp)) <==> j >= OldestRecord(start, life, rate, n)
  {
    hide Deadline, BucketOf, OldestSecond;
    DivAtMost(j, rate);
    LiveBucket(ops[j].exp, ops[n].now);
    SecondIsResident(start, life, j / rate, n / rate);
    DivAtLeast(j, rate, OldestSecond(start, life, n / rate));
  }

  lemma DivAtMost(j: nat, rate: nat)
    requires rate > 0
    ensures j / rate <= j
  {
    DivAtLeast(j, rate, j / rate);
    MulAtLeast(rate, j / rate);
  }

  lemma MulAtLeast(rate: nat, q: nat)
    requires rate > 0
    ensures q <= rate * q
  {}

  lemma SteadyRetained(start: int, life: nat, rate: nat, ops: seq<Op>, lo: nat, n: nat, index: Index)
    requires rate > 0 && SteadyLoad(start, life, rate, ops) && lo <= n < |ops| && Holds(ops, lo, n, index)
    requires lo <= OldestRecord(start, life, rate, n) && InRange(start, life, |ops|)
    ensures Holds(ops, OldestRecord(start, life, rate, n), n, Retained(index, ops[n].now))
    ensures ops[n].key !in Retained(index, ops[n].now)
  {
    forall j | lo <= j < n
      ensures ops[n].now < Deadline(BucketOf(ops[j].exp)) <==> j >= OldestRecord(start, life, rate, n)
    {
      StillResident(start, life, rate, ops, n, j);
    }
    hide Deadline, BucketOf, OldestRecord;
  }

  /** The verdict on a key that eviction leaves no entry of. */
  lemma FreshKeyCheck(index: Index, cap: nat, now: int, key: string, exp: int)
    requires now < exp && key !in Retained(index, now)
    ensures var kept := Retained(index, now);
            Check(index, cap, now, key, exp) == if |kept| >= cap then (kept, Full) else (kept[key := exp], Stored)
  {
    hide Retained;
    assert Without(Retained(index, now), key) == Retained(index, now);
  }

  lemma HoldsOneMore(ops: seq<Op>, lo: nat, n: nat, index: Index)
    requires DistinctKeys(ops) && lo <= n < |ops| && Holds(ops, lo, n, index)
    ensures Holds(ops, lo, n + 1, index[ops[n].key := ops[n].exp])
  {
    var more := index[ops[n].key := ops[n].exp];
    forall key | key in more ensures exists j :: lo <= j < n + 1 && ops[j].key == key {
      if key == ops[n].key {
        assert lo <= n < n + 1 && ops[n].key == key;
      } else {
        assert key in index;
      }
    }
  }

  /** One step of the load: how many records are retained decides the verdict. */
  lemma SteadyCheck(cap: nat, start: int, life: nat, rate: nat, ops: seq<Op>, lo: nat, n: nat, index: Index)
    requires rate > 0 && life > 0 && SteadyLoad(start, life, rate, ops) && lo <= n < |ops| && InRange(start, life, |ops|)
    requires Holds(ops, lo, n, index) && lo <= OldestRecord(start, life, rate, n) <= n
    ensures var (after, answer) := Check(index, cap, ops[n].now, ops[n].key, ops[n].exp);
            if n - OldestRecord(start, life, rate, n) >= cap then answer == Full
            else answer == Stored && Holds(ops, OldestRecord(start, life, rate, n), n + 1, after)
  {
    hide OldestRecord, Retained, Holds, Check;
    var oldest := OldestRecord(start, life, rate, n);
    var kept := Retained(index, ops[n].now);
    SteadyRetained(start, life, rate, ops, lo, n, index);
    FreshKeyCheck(index, cap, ops[n].now, ops[n].key, ops[n].exp);
    HoldsCard(ops, oldest, n, kept);
    HoldsOneMore(ops, oldest, n, kept);
  }

  /** None of the first `n` operations was refused. */
  ghost predicate UnrefusedUntil(cap: nat, ops: seq<Op>, n: nat)
    requires n <= |ops| && forall j :: 0 <= j < |ops| ==> ops[j].CheckAndStore?
  {
    n == 0 || (AnswerAt(cap, ops, n - 1) != Full && UnrefusedUntil(cap, ops, n - 1))
  }

  lemma {:induction false} UnrefusedMeans(cap: nat, ops: seq<Op>, n: nat)
    requires n <= |ops| && forall j :: 0 <= j < |ops| ==> ops[j].CheckAndStore?
    ensures UnrefusedUntil(cap, ops, n) <==> forall i: nat :: i < n ==> AnswerAt(cap, ops, i) != Full
  {
    hide AnswerAt;
    if n > 0 {
      UnrefusedMeans(cap, ops, n - 1);
    }
  }

  lemma SteadyMakesChecks(start: int, life: nat, rate: nat, ops: seq<Op>)
    requires rate > 0 && SteadyLoad(start, life, rate, ops)
    ensures forall j :: 0 <= j < |ops| ==> ops[j].CheckAndStore?
  {}

  lemma AnswerIsCheck(cap: nat, ops: seq<Op>, n: nat)
    requires n < |ops| && ops[n].CheckAndStore?
    ensures Check(IndexAt(cap, ops, n), cap, ops[n].now, ops[n].key, ops[n].exp)
            == (IndexAt(cap, ops, n + 1), AnswerAt(cap, ops, n))
  {
    hide Check;
  }

  /** The answer to operation `n` of a steady load that has not been refused so far. */
  lemma {:induction false} SteadyAnswer(cap: nat, start: int, life: nat, rate: nat, ops: seq<Op>, n: nat) returns (lo: nat)
    requires rate > 0 && life > 0 && SteadyLoad(start, life, rate, ops) && n < |ops| && InRange(start, life, |ops|)
    requires UnrefusedUntil(cap, ops, n)
    ensures lo <= n && Holds(ops, lo, n, IndexAt(cap, ops, n)) && lo <= OldestRecord(start, life, rate, n) <= n
    ensures AnswerAt(cap, ops, n) == if n - OldestRecord(start, life, rate, n) >= cap then Full else Stored
  {
    hide OldestRecord, Check, Holds, SteadyLoad, IndexAt, AnswerAt;
    SteadyMakesChecks(start, life, rate, ops);
    OldestIsPast(start, life, rate, n);
    if n == 0 {
      lo := 0;
      EmptyAtStart(cap, ops);
    } else {
      var before := SteadyAnswer(cap, start, life, rate, ops, n - 1);
      lo := OldestRecord(start, life, rate, n - 1);
      AnswerIsCheck(cap, ops, n - 1);
      SteadyCheck(cap, start, life, rate, ops, before, n - 1, IndexAt(cap, ops, n - 1));
    }
    AnswerIsCheck(cap, ops, n);
    SteadyCheck(cap, start, life, rate, ops, lo, n, IndexAt(cap, ops, n));
  }

  lemma EmptyAtStart(cap: nat, ops: seq<Op>)
    requires forall j :: 0 <= j < |ops| ==> ops[j].CheckAndStore?
    ensures Holds(ops, 0, 0, IndexAt(cap, ops, 0))
  {}

  lemma Distribute(rate: nat, t: nat, c: nat, life: nat)
    requires c <= t
    ensures rate * t - rate * c == rate * (t - c)
    ensures t - c <= life + 4 ==> rate * (t - c) <= rate * (life + 4)
    ensures rate * (life + 4) + rate == rate * (life + 5)
  {}

  /** How many records are resident before operation `n`. */
  lemma Residents(start: int, life: nat, rate: nat, n: nat)
    requires rate > 0
    ensures n - OldestRecord(start, life, rate, n) <= rate * (life + BUCKET_WIDTH_SECS) - 1
    ensures n % rate == rate - 1 && (start + n / rate) % 5 == 4 && n / rate >= life + 4 ==>
              n - OldestRecord(start, life, rate, n) == rate * (life + BUCKET_WIDTH_SECS) - 1
    ensures n / rate == life ==> OldestRecord(start, life, rate, n) == 0
  {
    var t, c := n / rate, OldestSecond(start, life, n / rate);
    assert n == rate * t + n % rate;
    Distribute(rate, t, c, life);
    assert n - OldestRecord(start, life, rate, n) == rate * (t - c) + n % rate;
  }

  /**
   * A steady load of `rate` keys per second is never refused if and only if the capacity is at least the
   * rate times the lifetime plus five seconds: records outlive their expiry until their bucket ends.
   */
  lemma SteadyLoadExact(cap: nat, start: int, life: nat, rate: nat, ops: seq<Op>)
    requires rate > 0 && life > 0 && SteadyLoad(start, life, rate, ops)
    requires rate * (life + 9) <= |ops| && InRange(start, life, |ops|)
    ensures NeverFull(cap, ops) <==> cap >= rate * (life + BUCKET_WIDTH_SECS)
  {
    hide OldestRecord, AnswerAt;
    UnrefusedMeans(cap, ops, |ops|);
    if cap >= rate * (life + BUCKET_WIDTH_SECS) {
      SteadyLoadAccepted(cap, start, life, rate, ops, |ops|);
    } else {
      var n := BusiestOperation(start, life, rate);
      UnrefusedMeans(cap, ops, n);
      if UnrefusedUntil(cap, ops, n) {
        var lo := SteadyAnswer(cap, start, life, rate, ops, n);
        Residents(start, life, rate, n);
        assert AnswerAt(cap, ops, n) == Full;
      }
    }
  }

  /** The last operation of a second at the end of a bucket, once the load has settled. */
  lemma BusiestOperation(start: int, life: nat, rate: nat) returns (n: nat)
    requires rate > 0
    ensures n < rate * (life + 9)
    ensures n % rate == rate - 1 && (start + n / rate) % 5 == 4 && n / rate >= life + 4
  {
    var t := life + 4 + (4 - (start + life + 4)) % 5;
    assert (start + t) % 5 == 4 && life + 4 <= t <= life + 8;
    n := rate * t + (rate - 1);
    DivAtLeast(n, rate, t);
    DivAtLeast(n, rate, t + 1);
    assert rate * (t + 1) == rate * t + rate;
    assert n / rate == t;
    assert n % rate == n - rate * t;
    assert rate * (t + 1) <= rate * (life + 9);
  }

  lemma {:induction false} SteadyLoadAccepted(cap: nat, start: int, life: nat, rate: nat, ops: seq<Op>, n: nat)
    requires rate > 0 && life > 0 && SteadyLoad(start, life, rate, ops) && n <= |ops| && InRange(start, life, |ops|)
    requires cap >= rate * (life + BUCKET_WIDTH_SECS)
    ensures UnrefusedUntil(cap, ops, n)
  {
    hide OldestRecord, AnswerAt, Holds;
    if n > 0 {
      SteadyLoadAccepted(cap, start, life, rate, ops, n - 1);
      var lo := SteadyAnswer(cap, start, life, rate, ops, n - 1);
      Residents(start, life, rate, n - 1);
    }
  }

  /** With as many entries as the rate times the lifetime, the second in which the first records expire is refused. */
  lemma SteadyLoadRefused(cap: nat, start: int, life: nat, rate: nat, ops: seq<Op>)
    requires rate > 0 && life > 0 && SteadyLoad(start, life, rate, ops) && cap == rate * life && cap < |ops|
    requires InRange(start, life, |ops|)
    ensures AnswerAt(cap, ops, cap) == Full
  {
    hide OldestRecord, AnswerAt, Holds, UnrefusedUntil;
    NotRefusedBefore(cap, start, life, rate, ops, cap);
    var lo := SteadyAnswer(cap, start, life, rate, ops, cap);
    ExactQuotient(rate, life);
    Residents(start, life, rate, cap);
  }

  lemma ExactQuotient(rate: nat, c: nat)
    requires rate > 0
    ensures (rate * c) / rate == c
  {
    DivAtLeast(rate * c, rate, c);
    DivAtLeast(rate * c, rate, c + 1);
    assert rate * (c + 1) == rate * c + rate;
  }

  lemma {:induction false} NotRefusedBefore(cap: nat, start: int, life: nat, rate: nat, ops: seq<Op>, n: nat)
    requires rate > 0 && life > 0 && SteadyLoad(start, life, rate, ops) && n <= cap && n <= |ops|
    requires InRange(start, life, |ops|)
    ensures UnrefusedUntil(cap, ops, n)
  {
    hide OldestRecord, AnswerAt, Holds;
    if n > 0 {
      NotRefusedBefore(cap, start, life, rate, ops, n - 1);
      var lo := SteadyAnswer(cap, start, life, rate, ops, n - 1);
    }
  }
}
