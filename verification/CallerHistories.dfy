/** Interleaved histories of whole caller authentications over the two shared caches. */
module CallerHistories {
  import opened Wrappers
  import opened Clock
  import opened TrustScope
  import opened PopProof
  import opened ReplayCache
  import opened Caller
  import opened CallerRuns

  /**
   * One event at the single-use memory, in the order of its lock: a call whose three artifact lookups
   * fell at these positions of the artifact cache's own run, or a sweep.
   */
  datatype Event =
    | Called(
        keys: KeyStore, req: Request, opts: Options, certAt: nat, tokenAt: nat, receiptAt: nat, commitAt: int)
    | Swept(sweptAt: int)
  {
    function Time(): int {
      if Called? then commitAt else sweptAt
    }
  }

  predicate Placed(e: Event, steps: seq<CacheStep>) {
    e.Called? ==> e.certAt <= |steps| && e.tokenAt <= |steps| && e.receiptAt <= |steps|
  }

  function HitsOf(lib: Library, steps: seq<CacheStep>, e: Event): Hits
    requires e.Called? && Placed(e, steps)
  {
    HitsAt(lib, steps, e.certAt, e.tokenAt, e.receiptAt, e.keys, e.req)
  }

  function Apply(lib: Library, cap: nat, steps: seq<CacheStep>, index: Index, e: Event): Index
    requires Placed(e, steps)
  {
    match e
    case Called(keys, req, opts, _, _, _, commitAt) =>
      VerifyCall(lib, keys, req, opts, HitsOf(lib, steps, e), index, cap, commitAt).0
    case Swept(sweptAt) => Retained(index, sweptAt)
  }

  function IndexAfter(lib: Library, cap: nat, steps: seq<CacheStep>, events: seq<Event>, n: nat): Index
    requires n <= |events| && forall e :: e in events ==> Placed(e, steps)
  {
    if n == 0 then map[] else Apply(lib, cap, steps, IndexAfter(lib, cap, steps, events, n - 1), events[n - 1])
  }

  function ResultOf(lib: Library, cap: nat, steps: seq<CacheStep>, events: seq<Event>, n: nat): Result<CallerIdentity, PopError>
    requires n < |events| && events[n].Called? && forall e :: e in events ==> Placed(e, steps)
  {
    var e := events[n];
    VerifyCall(lib, e.keys, e.req, e.opts, HitsOf(lib, steps, e), IndexAfter(lib, cap, steps, events, n), cap, e.commitAt).1
  }

  ghost function SkewOf(e: Event): int
    requires e.Called?
  {
    PopWindow(e.opts)
  }

  /** The memory's clock never goes back, and clocks and issue times are 64-bit numbers. */
  ghost predicate OrderlyHistory(lib: Library, steps: seq<CacheStep>, events: seq<Event>) {
    && (forall i, j :: 0 <= i < j < |events| ==> events[i].Time() <= events[j].Time())
    && (forall e :: e in events ==> OrderlyCall(lib, steps, e))
  }

  ghost predicate OrderlyCall(lib: Library, steps: seq<CacheStep>, e: Event) {
    && Placed(e, steps)
    && (e.Called? ==> IsI64(e.opts.now))
  }

  // ----- a history is a run of uses -----

  predicate Admitted(lib: Library, steps: seq<CacheStep>, e: Event)
    requires Placed(e, steps)
  {
    e.Called? && Authenticate(lib, e.keys, e.req, e.opts, HitsOf(lib, steps, e)).Ok?
  }

  /** What an event asks of the memory: an admitted call its commit, a refused call nothing. */
  ghost function UseOf(lib: Library, steps: seq<CacheStep>, e: Event): seq<Use>
    requires Placed(e, steps)
  {
    match e
    case Swept(sweptAt) => [Sweep(sweptAt)]
    case Called(_, req, opts, _, _, _, commitAt) =>
      if Admitted(lib, steps, e) && DecodeProof(lib, req.proof).Ok? then
        var payload := DecodeProof(lib, req.proof).value.payload;
        [Commit(payload.jti, payload.iat, SkewOf(e), opts.now, commitAt)]
      else []
  }

  ghost function UsesUpTo(lib: Library, steps: seq<CacheStep>, events: seq<Event>, n: nat): seq<Use>
    requires n <= |events| && forall e :: e in events ==> Placed(e, steps)
  {
    if n == 0 then [] else UsesUpTo(lib, steps, events, n - 1) + UseOf(lib, steps, events[n - 1])
  }

  /** What a call commits is decided by its proof alone, whatever artifacts its lookups found. */
  lemma AdmissionCommitsProof(lib: Library, keys: KeyStore, req: Request, opts: Options, hits: Hits)
    requires IsI64(opts.now)
    requires Authenticate(lib, keys, req, opts, hits).Ok?
    ensures DecodeProof(lib, req.proof).Ok?
    ensures var a := Authenticate(lib, keys, req, opts, hits).value;
            var payload := DecodeProof(lib, req.proof).value.payload;
            var skew := PopWindow(opts);
            && a.replayKey == lib.digestText(payload.jti) && a.replayExp == RecordedUntil(payload.iat, skew)
            && Fresh(payload.iat, opts.now, skew)
  {
    hide DecodeProof, Preflight, TokenPayload, ReceiptOf, BindCaller;
    hide CheckValidity, MatchJwk, CheckSignature, CheckHttpBinding, CheckTokenBinding, CheckFreshness;
    FreshnessExact(DecodeProof(lib, req.proof).value.payload.iat, opts.now, PopWindow(opts));
    WindowsMean(opts, DecodeProof(lib, req.proof).value.payload.iat);
  }

  /** An admitted call commits a fresh proof's own use. */
  lemma AdmittedUse(lib: Library, steps: seq<CacheStep>, e: Event)
    requires OrderlyCall(lib, steps, e) && Admitted(lib, steps, e)
    ensures DecodeProof(lib, e.req.proof).Ok?
    ensures var a := Authenticate(lib, e.keys, e.req, e.opts, HitsOf(lib, steps, e)).value;
            var payload := DecodeProof(lib, e.req.proof).value.payload;
            var use := Commit(payload.jti, payload.iat, SkewOf(e), e.opts.now, e.commitAt);
            && UseOf(lib, steps, e) == [use]
            && OpOf(lib, use) == CheckAndStore(e.commitAt, a.replayKey, a.replayExp)
            && Fresh(payload.iat, e.opts.now, SkewOf(e)) && IsI64(payload.iat)
  {
    hide Authenticate, DecodeProof;
    AdmissionCommitsProof(lib, e.keys, e.req, e.opts, HitsOf(lib, steps, e));
  }

  lemma EventIsUses(lib: Library, cap: nat, steps: seq<CacheStep>, index: Index, e: Event)
    requires OrderlyCall(lib, steps, e)
    ensures var uses := UseOf(lib, steps, e);
            && |uses| <= 1
            && Apply(lib, cap, steps, index, e) == if uses == [] then index else ReplayCache.Apply(index, cap, OpOf(lib, uses[0]))
  {
    hide Authenticate, Check;
    if Admitted(lib, steps, e) {
      AdmittedUse(lib, steps, e);
    }
  }

  lemma {:induction false} IndexOfPrefix(cap: nat, ops: seq<Op>, more: seq<Op>, n: nat)
    requires n <= |ops|
    ensures IndexAt(cap, ops + more, n) == IndexAt(cap, ops, n)
  {
    if n > 0 {
      IndexOfPrefix(cap, ops, more, n - 1);
      assert (ops + more)[n - 1] == ops[n - 1];
    }
  }

  lemma OpsAppend(lib: Library, uses: seq<Use>, more: seq<Use>)
    ensures Ops(lib, uses + more) == Ops(lib, uses) + Ops(lib, more)
  {}

  lemma RunExtends(lib: Library, cap: nat, before: seq<Use>, use: seq<Use>)
    requires |use| <= 1
    ensures var index := IndexAt(cap, Ops(lib, before), |before|);
            IndexAt(cap, Ops(lib, before + use), |before + use|)
            == if use == [] then index else ReplayCache.Apply(index, cap, OpOf(lib, use[0]))
  {
    hide ReplayCache.Apply, OpOf;
    if use == [] {
      assert before + use == before;
    } else {
      OpsAppend(lib, before, use);
      IndexOfPrefix(cap, Ops(lib, before), Ops(lib, use), |before|);
    }
  }

  /** The memory after a history is the memory after the uses its events made of it. */
  lemma {:induction false} HistoryIsRun(lib: Library, cap: nat, steps: seq<CacheStep>, events: seq<Event>, n: nat)
    requires OrderlyHistory(lib, steps, events) && n <= |events|
    ensures var uses := UsesUpTo(lib, steps, events, n);
            IndexAfter(lib, cap, steps, events, n) == IndexAt(cap, Ops(lib, uses), |uses|)
  {
    hide Apply, UseOf, SkewOf, DecodeProof, ReplayCache.Apply, Ops;
    if n > 0 {
      HistoryIsRun(lib, cap, steps, events, n - 1);
      assert events[n - 1] in events;
      EventIsUses(lib, cap, steps, IndexAfter(lib, cap, steps, events, n - 1), events[n - 1]);
      RunExtends(lib, cap, UsesUpTo(lib, steps, events, n - 1), UseOf(lib, steps, events[n - 1]));
    }
  }

  lemma {:induction false} UsesExtend(lib: Library, steps: seq<CacheStep>, events: seq<Event>, m: nat, n: nat)
    requires m < n <= |events| && forall e :: e in events ==> Placed(e, steps)
    ensures UsesUpTo(lib, steps, events, m) + UseOf(lib, steps, events[m]) <= UsesUpTo(lib, steps, events, n)
    decreases n
  {
    if m < n - 1 {
      UsesExtend(lib, steps, events, m, n - 1);
    }
  }

  lemma AtMostOneUse(lib: Library, steps: seq<CacheStep>, e: Event)
    requires Placed(e, steps)
    ensures |UseOf(lib, steps, e)| <= 1
  {
    hide Admitted, DecodeProof;
  }

  /** Each use comes from an event, in order. */
  lemma {:induction false} UseComesFrom(lib: Library, steps: seq<CacheStep>, events: seq<Event>, n: nat, k: nat) returns (m: nat)
    requires n <= |events| && forall e :: e in events ==> Placed(e, steps)
    requires k < |UsesUpTo(lib, steps, events, n)|
    ensures m < n && UseOf(lib, steps, events[m]) == [UsesUpTo(lib, steps, events, n)[k]]
    ensures k == |UsesUpTo(lib, steps, events, m)|
    decreases n
  {
    hide UseOf;
    var before, use := UsesUpTo(lib, steps, events, n - 1), UseOf(lib, steps, events[n - 1]);
    if k < |before| {
      m := UseComesFrom(lib, steps, events, n - 1, k);
    } else {
      m := n - 1;
      AtMostOneUse(lib, steps, events[m]);
    }
  }

  lemma {:induction false} FewerUses(lib: Library, steps: seq<CacheStep>, events: seq<Event>, m: nat, n: nat)
    requires m <= n <= |events| && forall e :: e in events ==> Placed(e, steps)
    ensures |UsesUpTo(lib, steps, events, m)| <= |UsesUpTo(lib, steps, events, n)|
    decreases n
  {
    if m < n {
      FewerUses(lib, steps, events, m, n - 1);
    }
  }

  /** The uses of an orderly history are an admissible run. */
  lemma HistoryIsAdmissible(lib: Library, steps: seq<CacheStep>, events: seq<Event>)
    requires OrderlyHistory(lib, steps, events)
    ensures Admissible(lib, UsesUpTo(lib, steps, events, |events|))
  {
    var uses := UsesUpTo(lib, steps, events, |events|);
    forall k | 0 <= k < |uses| && uses[k].Commit?
      ensures IsI64(uses[k].iat) && IsI64(uses[k].verifiedAt) && 0 <= uses[k].skew
      ensures Fresh(uses[k].iat, uses[k].verifiedAt, uses[k].skew)
    {
      var m := UseComesFrom(lib, steps, events, |events|, k);
      assert events[m] in events;
      AdmittedUse(lib, steps, events[m]);
    }
    forall i, j | 0 <= i < j < |uses| ensures Ops(lib, uses)[i].now <= Ops(lib, uses)[j].now {
      var m := UseComesFrom(lib, steps, events, |events|, i);
      var n := UseComesFrom(lib, steps, events, |events|, j);
      if n <= m {
        FewerUses(lib, steps, events, n, m);
      }
      UseTime(lib, steps, events[m]);
      UseTime(lib, steps, events[n]);
    }
  }

  lemma UseTime(lib: Library, steps: seq<CacheStep>, e: Event)
    requires Placed(e, steps) && UseOf(lib, steps, e) != []
    ensures OpOf(lib, UseOf(lib, steps, e)[0]).now == e.Time()
  {
    hide Admitted, DecodeProof;
  }

  /** A call that succeeds is a committed use. */
  lemma SuccessIsCommitted(lib: Library, cap: nat, steps: seq<CacheStep>, events: seq<Event>, m: nat)
    requires OrderlyHistory(lib, steps, events) && m < |events| && events[m].Called?
    requires ResultOf(lib, cap, steps, events, m).Ok?
    ensures var uses := UsesUpTo(lib, steps, events, |events|);
            var k := |UsesUpTo(lib, steps, events, m)|;
            && AcceptedUse(lib, cap, uses, k)
            && DecodeProof(lib, events[m].req.proof).Ok?
            && var payload := DecodeProof(lib, events[m].req.proof).value.payload;
            uses[k] == Commit(payload.jti, payload.iat, SkewOf(events[m]), events[m].opts.now, events[m].commitAt)
  {
    var e, uses, before := events[m], UsesUpTo(lib, steps, events, |events|), UsesUpTo(lib, steps, events, m);
    assert e in events;
    hide Authenticate, Check, DecodeProof;
    AdmittedUse(lib, steps, e);
    HistoryIsRun(lib, cap, steps, events, m);
    UsesExtend(lib, steps, events, m, |events|);
    var use := UseOf(lib, steps, e)[0];
    var k := |before|;
    assert uses == before + uses[k..];
    OpsAppend(lib, before, uses[k..]);
    IndexOfPrefix(cap, Ops(lib, before), Ops(lib, uses[k..]), k);
    assert uses[k] == (before + UseOf(lib, steps, e))[k] == use;
  }

  /**
   * Single use over whole histories: whatever other calls, sweeps and artifact lookups are interleaved,
   * two calls that succeed with one proof need a strictly larger skew the second time. Nothing is asked
   * of the hash, nor of the other calls' skews; only the first call's own record must have an expiry in
   * range.
   */
  lemma ProofSucceedsOnce(lib: Library, cap: nat, steps: seq<CacheStep>, events: seq<Event>, m: nat, n: nat)
    requires OrderlyHistory(lib, steps, events) && m < n < |events| && events[m].Called? && events[n].Called?
    requires ResultOf(lib, cap, steps, events, m).Ok? && ResultOf(lib, cap, steps, events, n).Ok?
    requires var (a, b) := (DecodeProof(lib, events[m].req.proof), DecodeProof(lib, events[n].req.proof));
             a.Ok? && b.Ok? ==> a.value.payload.jti == b.value.payload.jti && a.value.payload.iat == b.value.payload.iat
    requires var a := DecodeProof(lib, events[m].req.proof); a.Ok? ==> RoomFor(a.value.payload.iat, SkewOf(events[m]))
    ensures SkewOf(events[m]) < SkewOf(events[n])
  {
    hide DecodeProof, Admissible, AcceptedUse, ResultOf, UseOf, SkewOf;
    var uses := UsesUpTo(lib, steps, events, |events|);
    SuccessIsCommitted(lib, cap, steps, events, m);
    SuccessIsCommitted(lib, cap, steps, events, n);
    HistoryIsAdmissible(lib, steps, events);
    UsesExtend(lib, steps, events, m, n);
    var i, j := |UsesUpTo(lib, steps, events, m)|, |UsesUpTo(lib, steps, events, n)|;
    assert i < j by {
      MadeUse(lib, cap, steps, events, m);
    }
    ProofAcceptedOnce(lib, cap, uses, i, j);
  }

  lemma MadeUse(lib: Library, cap: nat, steps: seq<CacheStep>, events: seq<Event>, m: nat)
    requires OrderlyHistory(lib, steps, events) && m < |events| && events[m].Called?
    requires ResultOf(lib, cap, steps, events, m).Ok?
    ensures |UseOf(lib, steps, events[m])| == 1
  {
    hide Authenticate, Check, DecodeProof;
    assert events[m] in events;
    AdmittedUse(lib, steps, events[m]);
  }
}
