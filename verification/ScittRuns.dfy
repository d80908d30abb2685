/** Trust scoping and transparency of the SCITT cache over every interleaving of calls that share it. */
module ScittRuns {
  import opened Wrappers
  import opened Text
  import opened Clock
  import opened Fingerprints
  import opened Names
  import opened Badges
  import opened TrustScope
  import opened Outcomes
  import opened ScittArtifacts
  import opened ScittVerifier
  import Merkle

  /** A key store together with artifact bytes presented under it. */
  type Presentation = (KeyStore, Bytes)

  function PresentationKey(lib: Library, p: Presentation): Fingerprint {
    KeyOf(lib, p.0, p.1)
  }

  /** The hash does not collide on what is presented, and every expiry is a 64-bit number. */
  ghost predicate CollisionFree(lib: Library, presented: set<Presentation>) {
    && (forall p :: p in presented ==> Scoped(lib.sha256, p.0))
    && (forall p, q :: p in presented && q in presented ==> NoCollision(lib.sha256, p.0, p.1, q.0, q.1))
    && (forall p :: p in presented && OpenToken(lib, p.0, p.1).Ok? ==> IsI64(OpenToken(lib, p.0, p.1).value.payload.exp))
  }

  lemma SameKeySamePresentation(lib: Library, presented: set<Presentation>, p: Presentation, q: Presentation)
    requires CollisionFree(lib, presented) && p in presented && q in presented
    requires PresentationKey(lib, p) == PresentationKey(lib, q)
    ensures p == q
  {
    ArtifactKeyInjective(lib.sha256, p.0, p.1, q.0, q.1);
  }

  /** A call presents its artifacts under the snapshot it starts from. */
  ghost predicate Presents(call: Call, presented: set<Presentation>) {
    && call.headers.token.Some?
    && (call.store, call.headers.token.value) in presented
    && (call.headers.receipt.Some? ==> (call.store, call.headers.receipt.value) in presented)
  }

  // ----- what cache entries vouch for -----

  ghost predicate TokenVouched(lib: Library, store: KeyStore, token: Bytes, t: VerifiedToken) {
    OpenToken(lib, store, token) == Ok(t) && !t.payload.status.ShouldReject()
  }

  ghost predicate ReceiptVouched(lib: Library, store: KeyStore, receipt: Bytes, r: Receipt) {
    VerifyReceipt(lib, store, receipt) == Ok(r)
  }

  /** The whole outcome rests on one snapshot, and its receipt names the token's own host. */
  ghost predicate OutcomeVouched(
    lib: Library, fp: Fingerprint, store: KeyStore, token: Bytes, receipt: Option<Bytes>, o: CachedOutcome)
  {
    && o.fingerprint == fp && o.exp == o.token.payload.exp
    && TokenVouched(lib, store, token, o.token)
    && (o.tier == FullScitt <==> receipt.Some?)
    && (receipt.Some? ==>
          && VerifyReceipt(lib, store, receipt.value).Ok?
          && SameRegistration(lib, VerifyReceipt(lib, store, receipt.value).value, o.token.payload,
                              Some(o.token.payload.name.fqdn)))
  }

  ghost predicate TokensSound(lib: Library, presented: set<Presentation>, s: ScittState) {
    forall p :: p in presented && PresentationKey(lib, p) in s.tokens ==>
      TokenVouched(lib, p.0, p.1, s.tokens[PresentationKey(lib, p)])
  }

  ghost predicate ReceiptsSound(lib: Library, presented: set<Presentation>, s: ScittState) {
    forall p :: p in presented && PresentationKey(lib, p) in s.receipts ==>
      ReceiptVouched(lib, p.0, p.1, s.receipts[PresentationKey(lib, p)])
  }

  ghost predicate OutcomesSound(lib: Library, presented: set<Presentation>, s: ScittState) {
    forall call: Call :: Presents(call, presented) && OutcomeKeyOf(lib, call) in s.outcomes ==>
      OutcomeVouched(lib, call.cert.fingerprint, call.store, call.headers.token.value, call.headers.receipt,
                     s.outcomes[OutcomeKeyOf(lib, call)])
  }

  /** Every entry under a key of snapshot `S` was verified entirely under `S`. */
  ghost predicate Sound(lib: Library, presented: set<Presentation>, s: ScittState) {
    TokensSound(lib, presented, s) && ReceiptsSound(lib, presented, s) && OutcomesSound(lib, presented, s)
  }

  // ----- a call decides the same with sound hits -----

  lemma TokenHitAgrees(lib: Library, presented: set<Presentation>, s: ScittState, call: Call)
    requires CollisionFree(lib, presented) && TokensSound(lib, presented, s) && Presents(call, presented) && IsI64(call.now)
    ensures CheckToken(lib, call, call.headers.token.value, FindToken(lib, s, call))
            == CheckToken(lib, call, call.headers.token.value, None)
  {
    var p: Presentation := (call.store, call.headers.token.value);
    if PresentationKey(lib, p) in s.tokens {
      var t := s.tokens[PresentationKey(lib, p)];
      assert TokenVouched(lib, p.0, p.1, t);
    }
  }

  lemma ReceiptHitAgrees(lib: Library, presented: set<Presentation>, s: ScittState, call: Call)
    requires ReceiptsSound(lib, presented, s) && Presents(call, presented) && call.headers.receipt.Some?
    ensures CheckReceipt(lib, call, call.store, call.headers.receipt.value, FindReceipt(lib, s, call))
            == CheckReceipt(lib, call, call.store, call.headers.receipt.value, None)
  {
    var p: Presentation := (call.store, call.headers.receipt.value);
    if PresentationKey(lib, p) in s.receipts {
      assert ReceiptVouched(lib, p.0, p.1, s.receipts[PresentationKey(lib, p)]);
    }
  }

  /** Once the peer checks pass, the host a receipt is bound to is the token's own host, for both roles. */
  lemma PeerHost(cert: CertIdentity, payload: StatusPayload, call: Call)
    requires call.cert == cert && CheckCertificate(cert, payload, call.role).None?
    ensures ExpectedHost(call).Some? && EqIgnoreCase(ExpectedHost(call).value, payload.name.fqdn)
  {}

  lemma CheckedStore(lib: Library, call: Call, token: Bytes, hit: Option<VerifiedToken>)
    requires CheckToken(lib, call, token, hit).Ok? && !CheckToken(lib, call, token, hit).value.refreshed
    ensures CheckToken(lib, call, token, hit).value.store == call.store
  {}

  lemma LayerOneAgrees(
    lib: Library, presented: set<Presentation>, s1: ScittState, s2: ScittState, call: Call)
    requires CollisionFree(lib, presented) && Presents(call, presented) && IsI64(call.now)
    requires TokensSound(lib, presented, s1) && ReceiptsSound(lib, presented, s2)
    ensures Decide(lib, call, Hits(None, FindToken(lib, s1, call), FindReceipt(lib, s2, call)))
            == Decide(lib, call, NO_HITS)
  {
    hide VerifyTokenAt, VerifyReceipt, CheckCertificate, BindReceiptToStatus, TokensSound, ReceiptsSound, CollisionFree;
    TokenHitAgrees(lib, presented, s1, call);
    var token := CheckToken(lib, call, call.headers.token.value, None);
    if token.Ok? && call.headers.receipt.Some? {
      ReceiptHitAgrees(lib, presented, s2, call);
      if !token.value.refreshed {
        CheckedStore(lib, call, call.headers.token.value, None);
      }
    }
  }

  lemma OutcomeHitAgrees(lib: Library, presented: set<Presentation>, s: ScittState, call: Call)
    requires CollisionFree(lib, presented) && OutcomesSound(lib, presented, s) && Presents(call, presented)
    requires IsI64(call.now) && FindOutcome(lib, s, call).Some?
    ensures forall token, receipt ::
      Decide(lib, call, Hits(FindOutcome(lib, s, call), token, receipt)) == Decide(lib, call, NO_HITS)
  {
    var o := FindOutcome(lib, s, call).value;
    var bytes := call.headers.token.value;
    assert OutcomeVouched(lib, call.cert.fingerprint, call.store, bytes, call.headers.receipt, o);
    LiveOutcomeToken(lib, presented, call, o);
    if CheckCertificate(call.cert, o.token.payload, call.role).None? {
      PeerHost(call.cert, o.token.payload, call);
      if call.headers.receipt.Some? {
        var r := VerifyReceipt(lib, call.store, call.headers.receipt.value).value;
        var host := o.token.payload.name.fqdn;
        BindingMeans(lib, r, o.token.payload, Some(host));
        BindingIgnoresHostCase(lib, r, o.token.payload, host, ExpectedHost(call).value);
      }
    }
  }

  /** An unexpired outcome's token would still verify now, tolerance or not. */
  lemma LiveOutcomeToken(lib: Library, presented: set<Presentation>, call: Call, o: CachedOutcome)
    requires CollisionFree(lib, presented) && Presents(call, presented) && IsI64(call.now) && call.now < o.exp
    requires OutcomeVouched(lib, call.cert.fingerprint, call.store, call.headers.token.value, call.headers.receipt, o)
    ensures CheckToken(lib, call, call.headers.token.value, None) == Ok(Checked(o.token, call.store, false))
  {
    var p: Presentation := (call.store, call.headers.token.value);
    assert p in presented && IsI64(o.exp);
  }

  // ----- every interleaving keeps the cache sound -----

  /**
   * One atomic write to the shared cache. An outcome is written by a call that read the token at
   * position `tokenAt` and the receipt at `receiptAt` of the same run.
   */
  datatype Step =
    | TokenStep(call: Call)
    | ReceiptStep(call: Call)
    | OutcomeStep(call: Call, tokenAt: nat, receiptAt: nat)
    | Dropped(keys: set<Fingerprint>, outcomeKeys: set<OutcomeKey>)

  function StateAt(lib: Library, steps: seq<Step>, n: nat): ScittState
    requires n <= |steps|
    decreases n
  {
    if n == 0 then NOTHING_CACHED
    else
      var s := StateAt(lib, steps, n - 1);
      match steps[n - 1]
      case TokenStep(call) => if call.headers.token.Some? then PutToken(lib, s, call) else s
      case ReceiptStep(call) => PutReceipt(lib, s, call)
      case OutcomeStep(call, tokenAt, receiptAt) =>
        if tokenAt < n && receiptAt < n && call.headers.token.Some? then
          PutOutcome(lib, s, call, FindToken(lib, StateAt(lib, steps, tokenAt), call),
                     FindReceipt(lib, StateAt(lib, steps, receiptAt), call))
        else s
      case Dropped(keys, outcomeKeys) =>
        ScittState(
          map k | k in s.tokens && k !in keys :: s.tokens[k],
          map k | k in s.receipts && k !in keys :: s.receipts[k],
          map k | k in s.outcomes && k !in outcomeKeys :: s.outcomes[k])
  }

  ghost predicate PresentedRun(steps: seq<Step>, presented: set<Presentation>) {
    forall i :: 0 <= i < |steps| && !steps[i].Dropped? ==> Presents(steps[i].call, presented) && IsI64(steps[i].call.now)
  }

  lemma PutTokenSound(lib: Library, presented: set<Presentation>, s: ScittState, call: Call)
    requires CollisionFree(lib, presented) && Presents(call, presented) && TokensSound(lib, presented, s)
    ensures TokensSound(lib, presented, PutToken(lib, s, call))
  {
    var q: Presentation := (call.store, call.headers.token.value);
    forall p | p in presented && PresentationKey(lib, p) == PresentationKey(lib, q) ensures p == q {
      SameKeySamePresentation(lib, presented, p, q);
    }
  }

  lemma PutReceiptSound(lib: Library, presented: set<Presentation>, s: ScittState, call: Call)
    requires CollisionFree(lib, presented) && Presents(call, presented) && ReceiptsSound(lib, presented, s)
    ensures ReceiptsSound(lib, presented, PutReceipt(lib, s, call))
  {
    if call.headers.receipt.Some? {
      var q: Presentation := (call.store, call.headers.receipt.value);
      forall p | p in presented && PresentationKey(lib, p) == PresentationKey(lib, q) ensures p == q {
        SameKeySamePresentation(lib, presented, p, q);
      }
    }
  }

  /** Without a refresh, a success rests on the call's own snapshot. */
  lemma UnrefreshedSuccess(lib: Library, call: Call, t: VerifiedToken, tier: Tier, fp: Fingerprint)
    requires call.headers.token.Some? && Decide(lib, Unrefreshed(call), NO_HITS) == Some(Accepted(t, tier, fp))
    ensures OutcomeVouched(lib, call.cert.fingerprint, call.store, call.headers.token.value, call.headers.receipt,
                           CachedOutcome(t, tier, fp, t.payload.exp))
  {
    var plain := Unrefreshed(call);
    PeerHost(plain.cert, t.payload, plain);
    if call.headers.receipt.Some? {
      var r := VerifyReceipt(lib, call.store, call.headers.receipt.value).value;
      BindingIgnoresHostCase(lib, r, t.payload, ExpectedHost(plain).value, t.payload.name.fqdn);
      BindingMeans(lib, r, t.payload, Some(t.payload.name.fqdn));
    }
  }

  lemma SameOutcomeKey(lib: Library, presented: set<Presentation>, a: Call, b: Call)
    requires CollisionFree(lib, presented) && Presents(a, presented) && Presents(b, presented)
    requires OutcomeKeyOf(lib, a) == OutcomeKeyOf(lib, b)
    ensures a.cert.fingerprint == b.cert.fingerprint && a.store == b.store && a.headers == b.headers
  {
    SameKeySamePresentation(lib, presented, (a.store, a.headers.token.value), (b.store, b.headers.token.value));
    if a.headers.receipt.Some? {
      SameKeySamePresentation(lib, presented, (a.store, a.headers.receipt.value), (b.store, b.headers.receipt.value));
    }
  }

  lemma PutOutcomeSound(
    lib: Library, presented: set<Presentation>, s: ScittState, s1: ScittState, s2: ScittState, call: Call)
    requires CollisionFree(lib, presented) && Presents(call, presented) && IsI64(call.now)
    requires OutcomesSound(lib, presented, s) && TokensSound(lib, presented, s1) && ReceiptsSound(lib, presented, s2)
    ensures OutcomesSound(lib, presented, PutOutcome(lib, s, call, FindToken(lib, s1, call), FindReceipt(lib, s2, call)))
  {
    hide Decide, OutcomeVouched, CollisionFree, TokensSound, ReceiptsSound;
    var (hitToken, hitReceipt) := (FindToken(lib, s1, call), FindReceipt(lib, s2, call));
    var s' := PutOutcome(lib, s, call, hitToken, hitReceipt);
    var verdict := Decide(lib, Unrefreshed(call), Hits(None, hitToken, hitReceipt));
    UnrefreshedFinds(lib, presented, s1, s2, call);
    if verdict.Some? && verdict.value.ScittVerified? {
      AcceptedShape(lib, Unrefreshed(call), NO_HITS);
      var (t, tier, fp) := (verdict.value.token, verdict.value.tier, verdict.value.fingerprint);
      UnrefreshedSuccess(lib, call, t, tier, fp);
      forall other: Call | Presents(other, presented) && OutcomeKeyOf(lib, other) in s'.outcomes
        ensures OutcomeVouched(lib, other.cert.fingerprint, other.store, other.headers.token.value, other.headers.receipt,
                               s'.outcomes[OutcomeKeyOf(lib, other)])
      {
        if OutcomeKeyOf(lib, other) == OutcomeKeyOf(lib, call) {
          SameOutcomeKey(lib, presented, other, call);
        }
      }
    }
  }

  lemma UnrefreshedFinds(lib: Library, presented: set<Presentation>, s1: ScittState, s2: ScittState, call: Call)
    requires CollisionFree(lib, presented) && Presents(call, presented) && IsI64(call.now)
    requires TokensSound(lib, presented, s1) && ReceiptsSound(lib, presented, s2)
    ensures Decide(lib, Unrefreshed(call), Hits(None, FindToken(lib, s1, call), FindReceipt(lib, s2, call)))
            == Decide(lib, Unrefreshed(call), NO_HITS)
  {
    var plain := Unrefreshed(call);
    assert FindToken(lib, s1, plain) == FindToken(lib, s1, call) && FindReceipt(lib, s2, plain) == FindReceipt(lib, s2, call);
    assert Presents(plain, presented);
    LayerOneAgrees(lib, presented, s1, s2, plain);
  }

  lemma AcceptedShape(lib: Library, call: Call, hits: Hits)
    requires Decide(lib, call, hits).Some? && Decide(lib, call, hits).value.ScittVerified?
    ensures var o := Decide(lib, call, hits).value; o == Accepted(o.token, o.tier, o.fingerprint)
  {}

  /**
   * Entries stay in their trust scope: after any interleaving of calls, with any snapshots, refreshes
   * and evictions, every entry was verified entirely under the snapshot its key is computed from.
   */
  lemma {:induction false} RunsStaySound(lib: Library, presented: set<Presentation>, steps: seq<Step>, n: nat)
    requires CollisionFree(lib, presented) && PresentedRun(steps, presented) && n <= |steps|
    ensures Sound(lib, presented, StateAt(lib, steps, n))
    decreases n
  {
    if n > 0 {
      RunsStaySound(lib, presented, steps, n - 1);
      var s, step := StateAt(lib, steps, n - 1), steps[n - 1];
      if step.OutcomeStep? && step.tokenAt < n && step.receiptAt < n {
        RunsStaySound(lib, presented, steps, step.tokenAt);
        RunsStaySound(lib, presented, steps, step.receiptAt);
      }
      StepStaysSound(lib, presented, steps, n);
    }
  }

  lemma StepStaysSound(lib: Library, presented: set<Presentation>, steps: seq<Step>, n: nat)
    requires CollisionFree(lib, presented) && PresentedRun(steps, presented) && 0 < n <= |steps|
    requires Sound(lib, presented, StateAt(lib, steps, n - 1))
    requires var step := steps[n - 1];
             step.OutcomeStep? && step.tokenAt < n && step.receiptAt < n ==>
               Sound(lib, presented, StateAt(lib, steps, step.tokenAt))
               && Sound(lib, presented, StateAt(lib, steps, step.receiptAt))
    ensures Sound(lib, presented, StateAt(lib, steps, n))
  {
    hide CollisionFree, TokenVouched, ReceiptVouched, OutcomeVouched, Presents, Decide;
    var s := StateAt(lib, steps, n - 1);
    match steps[n - 1]
    case TokenStep(call) =>
      if call.headers.token.Some? {
        PutTokenSound(lib, presented, s, call);
      }
    case ReceiptStep(call) => PutReceiptSound(lib, presented, s, call);
    case OutcomeStep(call, i, j) =>
      if i < n && j < n && call.headers.token.Some? {
        PutOutcomeSound(lib, presented, s, StateAt(lib, steps, i), StateAt(lib, steps, j), call);
      }
    case Dropped(_, _) =>
  }

  /** A call run on its own writes by the same three steps. */
  lemma CallKeepsSound(lib: Library, presented: set<Presentation>, s: ScittState, call: Call)
    requires CollisionFree(lib, presented) && Presents(call, presented) && IsI64(call.now) && Sound(lib, presented, s)
    ensures Sound(lib, presented, ScittVerifier.AfterCall(lib, s, call))
  {
    hide CollisionFree, TokenVouched, ReceiptVouched, OutcomeVouched, Decide;
    PutTokenSound(lib, presented, s, call);
    var hit := FindToken(lib, s, call);
    var s1 := if hit.Some? then s else PutToken(lib, s, call);
    PutReceiptSound(lib, presented, s1, call);
    var s2 := if FindReceipt(lib, s1, call).Some? then s1 else PutReceipt(lib, s1, call);
    PutOutcomeSound(lib, presented, s2, s, s1, call);
  }

  /** The lookups of one call, falling at positions `i`, `j` and `k` of a run. */
  function HitsAt(lib: Library, steps: seq<Step>, i: nat, j: nat, k: nat, call: Call): Hits
    requires i <= |steps| && j <= |steps| && k <= |steps|
  {
    if call.headers.token.None? then NO_HITS
    else
      Hits(FindOutcome(lib, StateAt(lib, steps, i), call),
           FindToken(lib, StateAt(lib, steps, j), call),
           FindReceipt(lib, StateAt(lib, steps, k), call))
  }

  /**
   * Caching is transparent: wherever in a run the three lookups of a call fall, the call decides what
   * it would decide without a cache, key refreshes included.
   */
  lemma ScittCachingIsTransparent(
    lib: Library, presented: set<Presentation>, steps: seq<Step>, call: Call, i: nat, j: nat, k: nat)
    requires CollisionFree(lib, presented) && PresentedRun(steps, presented) && IsI64(call.now)
    requires call.headers.token.Some? ==> Presents(call, presented)
    requires i <= |steps| && j <= |steps| && k <= |steps|
    ensures Decide(lib, call, HitsAt(lib, steps, i, j, k, call)) == Decide(lib, call, NO_HITS)
  {
    hide Decide, CollisionFree;
    if call.headers.token.None? {
      return;
    }
    RunsStaySound(lib, presented, steps, i);
    RunsStaySound(lib, presented, steps, j);
    RunsStaySound(lib, presented, steps, k);
    if FindOutcome(lib, StateAt(lib, steps, i), call).Some? {
      OutcomeHitAgrees(lib, presented, StateAt(lib, steps, i), call);
    } else {
      LayerOneAgrees(lib, presented, StateAt(lib, steps, j), StateAt(lib, steps, k), call);
    }
  }

  // ----- what success means -----

  ghost predicate PeerEvidence(cert: CertIdentity, payload: StatusPayload, role: Role) {
    match role
    case Server(dialed) => cert.fingerprint in payload.serverCerts && Lower(payload.name.fqdn) == Lower(dialed)
    case Client =>
      && cert.fingerprint in payload.identityCerts
      && cert.AnsName().Some? && Lower(PrintAnsName(cert.AnsName().value)) == Lower(PrintAnsName(payload.name))
      && cert.Fqdn().Some? && Lower(cert.Fqdn().value) == Lower(payload.name.fqdn)
  }

  /** The host the receipt must name: the one dialed, or the one a client's certificate names first. */
  ghost function AnchorHost(call: Call): Option<string> {
    match call.role
    case Server(dialed) => Some(dialed)
    case Client => if call.cert.dnsSans != [] then Some(call.cert.dnsSans[0]) else call.cert.commonName
  }

  ghost predicate TokenEvidence(lib: Library, store: KeyStore, call: Call, t: VerifiedToken) {
    call.headers.token.Some? && LiveToken(lib, store, call.headers.token.value, call.skew.secs, call.now, t)
  }

  ghost predicate ReceiptEvidence(lib: Library, store: KeyStore, call: Call, t: VerifiedToken) {
    && call.headers.receipt.Some?
    && exists r :: SignedReceipt(lib, store, call.headers.receipt.value, r) && SameRegistration(lib, r, t.payload, AnchorHost(call))
  }

  /** The token is evidence under the first snapshot or, exactly when that lacks its key, under a refreshed one. */
  ghost predicate TokenUnder(lib: Library, call: Call, current: KeyStore, t: VerifiedToken) {
    || (current == call.store && TokenEvidence(lib, call.store, call, t))
    || (call.tokenRefresh == Some(current) && call.headers.token.Some?
        && LacksKey(lib, call.store, call.headers.token.value) && TokenEvidence(lib, current, call, t))
  }

  /** The same for the receipt, from the snapshot the token left current. */
  ghost predicate ReceiptUnder(lib: Library, call: Call, current: KeyStore, t: VerifiedToken) {
    || ReceiptEvidence(lib, current, call, t)
    || (call.receiptRefresh.Some? && call.headers.receipt.Some?
        && LacksKey(lib, current, call.headers.receipt.value) && ReceiptEvidence(lib, call.receiptRefresh.value, call, t))
  }

  ghost predicate ScittEvidence(lib: Library, call: Call, t: VerifiedToken, tier: Tier, fp: Fingerprint) {
    && fp == call.cert.fingerprint
    && PeerEvidence(call.cert, t.payload, call.role)
    && (tier == FullScitt <==> call.headers.receipt.Some?)
    && exists current :: EvidenceFrom(lib, call, current, t)
  }

  ghost predicate EvidenceFrom(lib: Library, call: Call, current: KeyStore, t: VerifiedToken) {
    TokenUnder(lib, call, current, t) && (call.headers.receipt.Some? ==> ReceiptUnder(lib, call, current, t))
  }

  /** What a token check that ends with this snapshot stands for. */
  ghost predicate TokenChecked(lib: Library, call: Call, current: KeyStore, t: VerifiedToken)
    requires call.headers.token.Some?
  {
    var checked := CheckToken(lib, call, call.headers.token.value, None);
    checked.Ok? && checked.value.artifact == t && checked.value.store == current
  }

  lemma TokenCheckMeans(lib: Library, call: Call, current: KeyStore, t: VerifiedToken)
    requires call.headers.token.Some? && IsI64(call.now)
    ensures TokenChecked(lib, call, current, t) <==> TokenUnder(lib, call, current, t)
  {
    var token := call.headers.token.value;
    LiveTokenMeans(lib, call.store, token, call.skew, call.now, t);
    LiveTokenMeans(lib, current, token, call.skew, call.now, t);
    if call.tokenRefresh.Some? && TokenEvidence(lib, call.tokenRefresh.value, call, t) {
      KeyIsLacking(lib, call.store, call.tokenRefresh.value, call, t);
    }
  }

  /** A refresh can help only a token whose key the first snapshot lacks, and such a token asks for it. */
  lemma KeyIsLacking(lib: Library, store: KeyStore, refreshed: KeyStore, call: Call, t: VerifiedToken)
    requires call.headers.token.Some? && TokenEvidence(lib, refreshed, call, t)
    ensures var first := VerifyTokenAt(lib, store, call.headers.token.value, call.skew, call.now);
            first.Err? && first.error.UnknownKeyId? <==> LacksKey(lib, store, call.headers.token.value)
  {}

  lemma ReceiptKeyIsLacking(lib: Library, store: KeyStore, refreshed: KeyStore, bytes: Bytes, r: Receipt)
    requires SignedReceipt(lib, refreshed, bytes, r)
    ensures var first := VerifyReceipt(lib, store, bytes);
            first.Err? && first.error.UnknownKeyId? <==> LacksKey(lib, store, bytes)
  {
    hide Merkle.Walked;
  }

  /** The receipt is verified and bound, whichever snapshot it took. */
  ghost predicate ReceiptBound(lib: Library, call: Call, current: KeyStore, t: VerifiedToken)
    requires call.headers.receipt.Some?
  {
    var checked := CheckReceipt(lib, call, current, call.headers.receipt.value, None);
    checked.Ok? && BindReceiptToStatus(lib, checked.value.artifact, t.payload, ExpectedHost(call)).Ok?
  }

  lemma ReceiptCheckMeans(lib: Library, call: Call, current: KeyStore, t: VerifiedToken)
    requires call.headers.receipt.Some?
    ensures ReceiptBound(lib, call, current, t) <==> ReceiptUnder(lib, call, current, t)
  {
    hide VerifyReceipt, SignedReceipt, BindReceiptToStatus, SameRegistration, LacksKey;
    var bytes := call.headers.receipt.value;
    BoundMeans(lib, call, current, t);
    if call.receiptRefresh.Some? {
      var refreshed := call.receiptRefresh.value;
      BoundMeans(lib, call, refreshed, t);
      if r :| SignedReceipt(lib, refreshed, bytes, r) {
        ReceiptKeyIsLacking(lib, current, refreshed, bytes, r);
      }
    }
    if VerifyReceipt(lib, current, bytes).Ok? {
      ReceiptMeans(lib, current, bytes, VerifyReceipt(lib, current, bytes).value);
      KeyIsThere(lib, current, bytes, VerifyReceipt(lib, current, bytes).value);
    }
  }

  lemma KeyIsThere(lib: Library, store: KeyStore, bytes: Bytes, r: Receipt)
    requires SignedReceipt(lib, store, bytes, r)
    ensures !LacksKey(lib, store, bytes)
  {}

  lemma BoundMeans(lib: Library, call: Call, store: KeyStore, t: VerifiedToken)
    requires call.headers.receipt.Some?
    ensures var verified := VerifyReceipt(lib, store, call.headers.receipt.value);
            && (verified.Ok? <==> exists r :: SignedReceipt(lib, store, call.headers.receipt.value, r))
            && (verified.Ok? && BindReceiptToStatus(lib, verified.value, t.payload, ExpectedHost(call)).Ok?
                <==> ReceiptEvidence(lib, store, call, t))
  {
    hide VerifyReceipt, SignedReceipt, BindReceiptToStatus, SameRegistration;
    var bytes := call.headers.receipt.value;
    assert ExpectedHost(call) == AnchorHost(call);
    forall r ensures VerifyReceipt(lib, store, bytes) == Ok(r) <==> SignedReceipt(lib, store, bytes, r) {
      ReceiptMeans(lib, store, bytes, r);
    }
    if VerifyReceipt(lib, store, bytes).Ok? {
      BindingMeans(lib, VerifyReceipt(lib, store, bytes).value, t.payload, AnchorHost(call));
    }
  }

  lemma PeerMeans(cert: CertIdentity, payload: StatusPayload, role: Role)
    ensures CheckCertificate(cert, payload, role).None? <==> PeerEvidence(cert, payload, role)
    ensures CheckCertificate(cert, payload, role).Some? ==> !CheckCertificate(cert, payload, role).value.IsSuccess()
  {}

  /**
   * Exactly when a call succeeds, refreshes included: the peer is the token's, the token is evidence under
   * the first snapshot or, if that lacks its key, under the refreshed one, and so is the receipt, if any,
   * from there on. The tier is the full one exactly with a receipt.
   */
  lemma ScittSuccessIff(lib: Library, call: Call, t: VerifiedToken, tier: Tier, fp: Fingerprint)
    requires IsI64(call.now)
    ensures Decide(lib, call, NO_HITS) == Some(Accepted(t, tier, fp)) <==> ScittEvidence(lib, call, t, tier, fp)
  {
    hide CheckToken, CheckReceipt, CheckCertificate, BindReceiptToStatus, TokenUnder, ReceiptUnder, PeerEvidence;
    if call.headers.token.None? {
      NoTokenNoEvidence(lib, call, t);
    } else {
      forall current ensures TokenChecked(lib, call, current, t) <==> TokenUnder(lib, call, current, t) {
        TokenCheckMeans(lib, call, current, t);
      }
      forall current | call.headers.receipt.Some?
        ensures ReceiptBound(lib, call, current, t) <==> ReceiptUnder(lib, call, current, t)
      {
        ReceiptCheckMeans(lib, call, current, t);
      }
      PeerMeans(call.cert, t.payload, call.role);
      DecideAccepts(lib, call, t, tier, fp);
      forall current ensures AcceptedFrom(lib, call, current, t) <==> EvidenceFrom(lib, call, current, t) {}
    }
  }

  ghost predicate AcceptedFrom(lib: Library, call: Call, current: KeyStore, t: VerifiedToken)
    requires call.headers.token.Some?
  {
    TokenChecked(lib, call, current, t) && (call.headers.receipt.Some? ==> ReceiptBound(lib, call, current, t))
  }

  lemma DecideAccepts(lib: Library, call: Call, t: VerifiedToken, tier: Tier, fp: Fingerprint)
    requires call.headers.token.Some?
    ensures Decide(lib, call, NO_HITS) == Some(Accepted(t, tier, fp))
            <==> && fp == call.cert.fingerprint && (tier == FullScitt <==> call.headers.receipt.Some?)
                 && CheckCertificate(call.cert, t.payload, call.role).None?
                 && exists current :: AcceptedFrom(lib, call, current, t)
  {
    hide CheckToken, CheckReceipt, CheckCertificate, BindReceiptToStatus;
    RejectionIsNoSuccess(lib, call);
    var checked := CheckToken(lib, call, call.headers.token.value, None);
    if checked.Ok? {
      assert AcceptedFrom(lib, call, checked.value.store, t)
             <==> checked.value.artifact == t
                  && (call.headers.receipt.Some? ==> ReceiptBound(lib, call, checked.value.store, t));
    }
  }

  lemma NoTokenNoEvidence(lib: Library, call: Call, t: VerifiedToken)
    requires call.headers.token.None?
    ensures forall current :: !TokenUnder(lib, call, current, t)
  {}

  lemma RejectionIsNoSuccess(lib: Library, call: Call)
    ensures forall payload :: CheckCertificate(call.cert, payload, call.role).Some? ==>
              !CheckCertificate(call.cert, payload, call.role).value.IsSuccess()
  {
    hide CheckCertificate;
    forall payload | CheckCertificate(call.cert, payload, call.role).Some?
      ensures !CheckCertificate(call.cert, payload, call.role).value.IsSuccess()
    {
      PeerMeans(call.cert, payload, call.role);
    }
  }

  /** Every success is by SCITT evidence, and carries no badge of its own. */
  lemma ScittSuccessMeans(lib: Library, call: Call)
    requires IsI64(call.now) && Decide(lib, call, NO_HITS).Some? && Decide(lib, call, NO_HITS).value.IsSuccess()
    ensures var o := Decide(lib, call, NO_HITS).value;
            o.ScittVerified? && o.enhanced == None && ScittEvidence(lib, call, o.token, o.tier, o.fingerprint)
  {
    hide CheckToken, CheckReceipt, CheckCertificate, BindReceiptToStatus, ScittEvidence;
    RejectionIsNoSuccess(lib, call);
    var o := Decide(lib, call, NO_HITS).value;
    ScittSuccessIff(lib, call, o.token, o.tier, o.fingerprint);
  }

  lemma AcceptedSteps(lib: Library, call: Call, hits: Hits)
    requires call.headers.token.Some? && hits.outcome.None?
    requires Decide(lib, call, hits).Some? && Decide(lib, call, hits).value.ScittVerified?
    ensures CheckToken(lib, call, call.headers.token.value, hits.token).Ok?
    ensures CheckCertificate(
              call.cert, CheckToken(lib, call, call.headers.token.value, hits.token).value.artifact.payload, call.role).None?
  {
    hide CheckToken, CheckCertificate, Conclude;
    if CheckToken(lib, call, call.headers.token.value, hits.token).Ok? {
      PeerMeans(call.cert, CheckToken(lib, call, call.headers.token.value, hits.token).value.artifact.payload, call.role);
    }
  }

  /** A success without a refresh is answered by the outcome cache until the token expires. */
  lemma SuccessWarmsCache(lib: Library, s: ScittState, call: Call, hits: Hits, later: int)
    requires call.tokenRefresh == None && call.receiptRefresh == None && call.headers.token.Some?
    requires FindOutcome(lib, s, call).None?
    requires hits == Hits(None, FindToken(lib, s, call), FindReceipt(lib, s, call))
    requires Decide(lib, call, hits).Some? && Decide(lib, call, hits).value.ScittVerified?
    ensures var o := Decide(lib, call, hits).value;
            var found := FindOutcome(lib, ScittVerifier.AfterCall(lib, s, call), call.(now := later));
            later < o.token.payload.exp ==>
              found == Some(CachedOutcome(o.token, o.tier, o.fingerprint, o.token.payload.exp))
  {
    AcceptedSteps(lib, call, hits);
    hide Decide, VerifyTokenAt, VerifyReceipt, CheckCertificate, BindReceiptToStatus;
    assert Unrefreshed(call) == call;
    var token := CheckToken(lib, call, call.headers.token.value, hits.token).value;
    assert !token.refreshed;
    var s1 := if hits.token.Some? then s else PutToken(lib, s, call);
    assert FindReceipt(lib, s1, call) == hits.receipt;
    assert ScittVerifier.AfterCall(lib, s, call) == AfterPeer(lib, s1, call, false, hits.token);
    assert OutcomeKeyOf(lib, call.(now := later)) == OutcomeKeyOf(lib, call);
  }

  /** A token verified under the first snapshot is a hit afterwards, until it expires, however the call ends. */
  lemma VerifiedTokenIsCached(lib: Library, s: ScittState, call: Call, t: VerifiedToken, later: int)
    requires call.headers.token.Some? && FindOutcome(lib, s, call).None? && FindToken(lib, s, call).None?
    requires VerifyTokenAt(lib, call.store, call.headers.token.value, call.skew, call.now) == Ok(t) && later < t.payload.exp
    ensures FindToken(lib, ScittVerifier.AfterCall(lib, s, call), call.(now := later)) == Some(t)
  {
    hide VerifyTokenAt, VerifyReceipt, CheckCertificate, Decide;
    var s1 := PutToken(lib, s, call);
    assert FindToken(lib, s1, call.(now := later)) == Some(t);
  }

  /** So is a receipt verified under it, once the peer is accepted, whether or not it is bound to the token. */
  lemma VerifiedReceiptIsCached(lib: Library, s: ScittState, call: Call, t: VerifiedToken, r: Receipt)
    requires call.headers.token.Some? && call.headers.receipt.Some?
    requires FindOutcome(lib, s, call).None? && FindReceipt(lib, s, call).None?
    requires CheckToken(lib, call, call.headers.token.value, FindToken(lib, s, call)) == Ok(Checked(t, call.store, false))
    requires PeerEvidence(call.cert, t.payload, call.role)
    requires VerifyReceipt(lib, call.store, call.headers.receipt.value) == Ok(r)
    ensures FindReceipt(lib, ScittVerifier.AfterCall(lib, s, call), call) == Some(r)
  {
    hide VerifyTokenAt, VerifyReceipt, CheckCertificate, Decide, PeerEvidence;
    PeerMeans(call.cert, t.payload, call.role);
    var s1 := if FindToken(lib, s, call).Some? then s else PutToken(lib, s, call);
    assert FindReceipt(lib, s1, call).None?;
    assert FindReceipt(lib, PutReceipt(lib, s1, call), call) == Some(r);
  }
}
