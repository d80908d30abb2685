/** Verification from SCITT headers with a two-layer cache and one key refresh per artifact. */
module ScittVerifier {
  import opened Wrappers
  import opened Text
  import opened Clock
  import opened Fingerprints
  import opened Names
  import opened Badges
  import opened TrustScope
  import opened Outcomes
  import opened ScittArtifacts

  /** Servers are anchored to the dialed host, clients to their own certificate. */
  datatype Role = Server(dialed: string) | Client

  datatype Headers = Headers(token: Option<Bytes>, receipt: Option<Bytes>) {
    predicate IsEmpty() {
      token.None? && receipt.None?
    }
  }

  /**
   * One call: the key snapshot it starts from and, for each artifact, the snapshot after an on-demand
   * refresh if the key store would perform one.
   */
  datatype Call = Call(
    store: KeyStore, tokenRefresh: Option<KeyStore>, receiptRefresh: Option<KeyStore>,
    cert: CertIdentity, headers: Headers, role: Role, skew: Duration, now: int)

  // ----- peer checks -----

  /** Certificate role and peer names; made on every call, cache hits included. */
  function CheckCertificate(cert: CertIdentity, payload: StatusPayload, role: Role): Option<Outcome> {
    match role
    case Server(dialed) =>
      if cert.fingerprint !in payload.serverCerts then Some(ScittFailure(MissingTokenField))
      else if !EqIgnoreCase(payload.name.fqdn, dialed) then Some(ScittFailure(HostMismatch(dialed, payload.name.fqdn)))
      else None
    case Client =>
      if cert.fingerprint !in payload.identityCerts then Some(ScittFailure(MissingTokenField))
      else if cert.AnsName().None? then Some(CertFailure(NoUriSan))
      else if !EqIgnoreCase(PrintAnsName(cert.AnsName().value), PrintAnsName(payload.name))
      then Some(ScittFailure(IdentityBinding))
      else if cert.Fqdn().None? || !EqIgnoreCase(cert.Fqdn().value, payload.name.fqdn)
      then Some(ScittFailure(IdentityBinding))
      else None
  }

  function ExpectedHost(call: Call): Option<string> {
    match call.role
    case Server(dialed) => Some(dialed)
    case Client => call.cert.Fqdn()
  }

  // ----- artifacts, with refresh -----

  /** An artifact, the snapshot it left current, and whether a refresh replaced the first snapshot. */
  datatype Checked<T> = Checked(artifact: T, store: KeyStore, refreshed: bool)

  function CheckToken(lib: Library, call: Call, token: Bytes, hit: Option<VerifiedToken>)
    : Result<Checked<VerifiedToken>, ScittError>
  {
    if hit.Some? then Ok(Checked(hit.value, call.store, false))
    else
      match VerifyTokenAt(lib, call.store, token, call.skew, call.now)
      case Ok(t) => Ok(Checked(t, call.store, false))
      case Err(e) =>
        if e.UnknownKeyId? && call.tokenRefresh.Some? then
          var t :- VerifyTokenAt(lib, call.tokenRefresh.value, token, call.skew, call.now);
          Ok(Checked(t, call.tokenRefresh.value, true))
        else Err(e)
  }

  function CheckReceipt(lib: Library, call: Call, store: KeyStore, receipt: Bytes, hit: Option<Receipt>)
    : Result<Checked<Receipt>, ScittError>
  {
    if hit.Some? then Ok(Checked(hit.value, store, false))
    else
      match VerifyReceipt(lib, store, receipt)
      case Ok(r) => Ok(Checked(r, store, false))
      case Err(e) =>
        if e.UnknownKeyId? && call.receiptRefresh.Some? then
          var r :- VerifyReceipt(lib, call.receiptRefresh.value, receipt);
          Ok(Checked(r, call.receiptRefresh.value, true))
        else Err(e)
  }

  // ----- the cache -----

  datatype OutcomeKey = OutcomeKey(fingerprint: Fingerprint, tokenKey: Fingerprint, receiptKey: Option<Fingerprint>)
  datatype CachedOutcome = CachedOutcome(token: VerifiedToken, tier: Tier, fingerprint: Fingerprint, exp: int)

  datatype ScittState = ScittState(
    tokens: map<Fingerprint, VerifiedToken>, receipts: map<Fingerprint, Receipt>, outcomes: map<OutcomeKey, CachedOutcome>)

  const NOTHING_CACHED := ScittState(map[], map[], map[])

  function KeyOf(lib: Library, store: KeyStore, artifact: Bytes): Fingerprint {
    ArtifactKey(lib.sha256, store, artifact)
  }

  function ReceiptKey(lib: Library, call: Call): Option<Fingerprint> {
    if call.headers.receipt.Some? then Some(KeyOf(lib, call.store, call.headers.receipt.value)) else None
  }

  function OutcomeKeyOf(lib: Library, call: Call): OutcomeKey
    requires call.headers.token.Some?
  {
    OutcomeKey(call.cert.fingerprint, KeyOf(lib, call.store, call.headers.token.value), ReceiptKey(lib, call))
  }

  /** What the three lookups of a call find; expired tokens and outcomes are not returned. */
  datatype Hits = Hits(outcome: Option<CachedOutcome>, token: Option<VerifiedToken>, receipt: Option<Receipt>)

  const NO_HITS := Hits(None, None, None)

  function FindOutcome(lib: Library, s: ScittState, call: Call): Option<CachedOutcome>
    requires call.headers.token.Some?
  {
    var key := OutcomeKeyOf(lib, call);
    if key in s.outcomes && call.now < s.outcomes[key].exp then Some(s.outcomes[key]) else None
  }

  function FindToken(lib: Library, s: ScittState, call: Call): Option<VerifiedToken>
    requires call.headers.token.Some?
  {
    var key := KeyOf(lib, call.store, call.headers.token.value);
    if key in s.tokens && call.now < s.tokens[key].payload.exp then Some(s.tokens[key]) else None
  }

  function FindReceipt(lib: Library, s: ScittState, call: Call): Option<Receipt> {
    var key := ReceiptKey(lib, call);
    if key.Some? && key.value in s.receipts then Some(s.receipts[key.value]) else None
  }

  // ----- the verification -----

  function Accepted(token: VerifiedToken, tier: Tier, fp: Fingerprint): Outcome {
    ScittVerified(token, tier, fp, None)
  }

  /** The receipt part, once the token and the peer are accepted. */
  function Conclude(lib: Library, call: Call, token: Checked<VerifiedToken>, hit: Option<Receipt>): Outcome {
    match call.headers.receipt
    case None => Accepted(token.artifact, StatusTokenVerified, call.cert.fingerprint)
    case Some(bytes) =>
      match CheckReceipt(lib, call, token.store, bytes, if token.refreshed then None else hit)
      case Err(e) => ScittFailure(e)
      case Ok(receipt) =>
        match BindReceiptToStatus(lib, receipt.artifact, token.artifact.payload, ExpectedHost(call))
        case Err(e) => ScittFailure(e)
        case Ok(_) => Accepted(token.artifact, FullScitt, call.cert.fingerprint)
  }

  /** `None` only when the headers carry no status token. */
  function Decide(lib: Library, call: Call, hits: Hits): Option<Outcome> {
    if call.headers.token.None? then None
    else if hits.outcome.Some? then
      var o := hits.outcome.value;
      var rejection := CheckCertificate(call.cert, o.token.payload, call.role);
      if rejection.Some? then rejection else Some(Accepted(o.token, o.tier, o.fingerprint))
    else
      match CheckToken(lib, call, call.headers.token.value, hits.token)
      case Err(e) => Some(ScittFailure(e))
      case Ok(token) =>
        var rejection := CheckCertificate(call.cert, token.artifact.payload, call.role);
        if rejection.Some? then rejection else Some(Conclude(lib, call, token, hits.receipt))
  }

  // ----- what is stored -----

  /** A token verified under the first snapshot is kept; one verified after a refresh is not. */
  function PutToken(lib: Library, s: ScittState, call: Call): ScittState
    requires call.headers.token.Some?
  {
    match VerifyTokenAt(lib, call.store, call.headers.token.value, call.skew, call.now)
    case Ok(t) => s.(tokens := s.tokens[KeyOf(lib, call.store, call.headers.token.value) := t])
    case Err(_) => s
  }

  function PutReceipt(lib: Library, s: ScittState, call: Call): ScittState {
    if call.headers.receipt.None? then s
    else
      match VerifyReceipt(lib, call.store, call.headers.receipt.value)
      case Ok(r) => s.(receipts := s.receipts[KeyOf(lib, call.store, call.headers.receipt.value) := r])
      case Err(_) => s
  }

  /** The same call with a key store that would not refresh. */
  function Unrefreshed(call: Call): Call {
    call.(tokenRefresh := None, receiptRefresh := None)
  }

  /** An outcome is kept when it was reached, from these layer-one hits, without any refresh. */
  function PutOutcome(lib: Library, s: ScittState, call: Call, token: Option<VerifiedToken>, receipt: Option<Receipt>): ScittState
    requires call.headers.token.Some?
  {
    match Decide(lib, Unrefreshed(call), Hits(None, token, receipt))
    case Some(ScittVerified(t, tier, fp, _)) =>
      s.(outcomes := s.outcomes[OutcomeKeyOf(lib, call) := CachedOutcome(t, tier, fp, t.payload.exp)])
    case _ => s
  }

  /** The receipt and outcome stored once token and peer are accepted. */
  function AfterPeer(lib: Library, s: ScittState, call: Call, refreshed: bool, hit: Option<VerifiedToken>): ScittState
    requires call.headers.token.Some?
  {
    if refreshed then s
    else
      var receipt := FindReceipt(lib, s, call);
      PutOutcome(lib, if receipt.Some? then s else PutReceipt(lib, s, call), call, hit, receipt)
  }

  /** What a whole call leaves in the cache. */
  function AfterCall(lib: Library, s: ScittState, call: Call): ScittState {
    if call.headers.token.None? || FindOutcome(lib, s, call).Some? then s
    else
      var hit := FindToken(lib, s, call);
      var token := CheckToken(lib, call, call.headers.token.value, hit);
      if token.Err? then s
      else
        var s1 := if token.value.refreshed || hit.Some? then s else PutToken(lib, s, call);
        if CheckCertificate(call.cert, token.value.artifact.payload, call.role).Some? then s1
        else AfterPeer(lib, s1, call, token.value.refreshed, hit)
  }

  /** The receipt was not verified under the snapshot that was current when the call began to read it. */
  predicate ReceiptUnusable(lib: Library, call: Call, store: KeyStore, hit: Option<Receipt>) {
    && call.headers.receipt.Some?
    && var checked := CheckReceipt(lib, call, store, call.headers.receipt.value, hit);
    checked.Err? || checked.value.refreshed
  }

  /** The conclusion that may be stored: the same one, or a failure when the receipt took a refresh. */
  lemma StorableConclusion(lib: Library, call: Call, token: Checked<VerifiedToken>, hits: Hits)
    requires call.headers.token.Some? && hits.outcome.None? && !token.refreshed
    requires CheckToken(lib, call, call.headers.token.value, hits.token) == Ok(token)
    requires CheckCertificate(call.cert, token.artifact.payload, call.role).None?
    ensures var kept := Decide(lib, Unrefreshed(call), hits);
            if ReceiptUnusable(lib, call, token.store, hits.receipt) then kept.Some? && kept.value.ScittFailure?
            else kept == Some(Conclude(lib, call, token, hits.receipt))
  {
    hide VerifyTokenAt, VerifyReceipt, CheckCertificate, BindReceiptToStatus;
    var kept := Unrefreshed(call);
    assert CheckToken(lib, kept, call.headers.token.value, hits.token) == Ok(token);
    assert ExpectedHost(kept) == ExpectedHost(call);
    assert Decide(lib, kept, hits) == Some(Conclude(lib, kept, token, hits.receipt));
    if call.headers.receipt.Some? {
      var bytes := call.headers.receipt.value;
      var receipt := CheckReceipt(lib, call, token.store, bytes, hits.receipt);
      var again := CheckReceipt(lib, kept, token.store, bytes, hits.receipt);
      assert if receipt.Err? || receipt.value.refreshed then again.Err? else again == receipt;
    }
  }

  class ScittVerificationCache {
    var tokens: map<Fingerprint, VerifiedToken>
    var receipts: map<Fingerprint, Receipt>
    var outcomes: map<OutcomeKey, CachedOutcome>

    function State(): ScittState
      reads this
    {
      ScittState(tokens, receipts, outcomes)
    }

    constructor ()
      ensures State() == NOTHING_CACHED
    {
      tokens, receipts, outcomes := map[], map[], map[];
    }

    ghost function Found(lib: Library, call: Call): Hits
      requires call.headers.token.Some?
      reads this
    {
      Hits(FindOutcome(lib, State(), call), FindToken(lib, State(), call), FindReceipt(lib, State(), call))
    }

    /** The token step; `usable` says whether the cache may still be read and filled. */
    method TokenFor(lib: Library, call: Call) returns (token: Result<Checked<VerifiedToken>, ScittError>)
      requires call.headers.token.Some?
      modifies this
      ensures token == CheckToken(lib, call, call.headers.token.value, old(FindToken(lib, State(), call)))
      ensures State() == if token.Err? || token.value.refreshed || old(FindToken(lib, State(), call)).Some? then old(State())
                         else PutToken(lib, old(State()), call)
    {
      var bytes := call.headers.token.value;
      var hit := FindToken(lib, State(), call);
      if hit.Some? {
        return Ok(Checked(hit.value, call.store, false));
      }
      var first := VerifyTokenAt(lib, call.store, bytes, call.skew, call.now);
      if first.Ok? {
        tokens := tokens[KeyOf(lib, call.store, bytes) := first.value];
        return Ok(Checked(first.value, call.store, false));
      }
      if !first.error.UnknownKeyId? || call.tokenRefresh.None? {
        return Err(first.error);
      }
      var retried := VerifyTokenAt(lib, call.tokenRefresh.value, bytes, call.skew, call.now);
      if retried.Err? {
        return Err(retried.error);
      }
      return Ok(Checked(retried.value, call.tokenRefresh.value, true));
    }

    method ReceiptFor(lib: Library, call: Call, token: Checked<VerifiedToken>)
      returns (receipt: Result<Checked<Receipt>, ScittError>)
      requires call.headers.receipt.Some? && (!token.refreshed ==> token.store == call.store)
      modifies this
      ensures var hit := if token.refreshed then None else old(FindReceipt(lib, State(), call));
              receipt == CheckReceipt(lib, call, token.store, call.headers.receipt.value, hit)
      ensures State() == if token.refreshed || old(FindReceipt(lib, State(), call)).Some? then old(State())
                         else PutReceipt(lib, old(State()), call)
    {
      var bytes := call.headers.receipt.value;
      var hit := if token.refreshed then None else FindReceipt(lib, State(), call);
      if hit.Some? {
        return Ok(Checked(hit.value, token.store, false));
      }
      var first := VerifyReceipt(lib, token.store, bytes);
      if first.Ok? {
        if !token.refreshed {
          receipts := receipts[KeyOf(lib, call.store, bytes) := first.value];
        }
        return Ok(Checked(first.value, token.store, false));
      }
      if !first.error.UnknownKeyId? || call.receiptRefresh.None? {
        return Err(first.error);
      }
      var retried := VerifyReceipt(lib, call.receiptRefresh.value, bytes);
      if retried.Err? {
        return Err(retried.error);
      }
      return Ok(Checked(retried.value, call.receiptRefresh.value, true));
    }

    /** The receipt, the binding, and the outcome cache. */
    method Complete(lib: Library, call: Call, token: Checked<VerifiedToken>, ghost hit: Option<VerifiedToken>)
      returns (outcome: Outcome)
      requires call.headers.token.Some? && CheckToken(lib, call, call.headers.token.value, hit) == Ok(token)
      requires CheckCertificate(call.cert, token.artifact.payload, call.role).None?
      modifies this
      ensures outcome == Conclude(lib, call, token, old(FindReceipt(lib, State(), call)))
      ensures State() == AfterPeer(lib, old(State()), call, token.refreshed, hit)
    {
      hide VerifyTokenAt, VerifyReceipt, CheckCertificate, BindReceiptToStatus;
      ghost var hits := Hits(None, hit, FindReceipt(lib, State(), call));
      if !token.refreshed {
        StorableConclusion(lib, call, token, hits);
      }
      var usable := !token.refreshed;
      var tier := StatusTokenVerified;
      if call.headers.receipt.Some? {
        var receipt := ReceiptFor(lib, call, token);
        if receipt.Err? {
          return ScittFailure(receipt.error);
        }
        var bound := BindReceiptToStatus(lib, receipt.value.artifact, token.artifact.payload, ExpectedHost(call));
        if bound.Err? {
          return ScittFailure(bound.error);
        }
        usable := usable && !receipt.value.refreshed;
        tier := FullScitt;
      }
      if usable {
        var entry := CachedOutcome(token.artifact, tier, call.cert.fingerprint, token.artifact.payload.exp);
        outcomes := outcomes[OutcomeKeyOf(lib, call) := entry];
      }
      return Accepted(token.artifact, tier, call.cert.fingerprint);
    }

    method TryScitt(lib: Library, call: Call) returns (outcome: Option<Outcome>)
      modifies this
      ensures outcome == if call.headers.token.None? then None else Decide(lib, call, old(Found(lib, call)))
      ensures State() == AfterCall(lib, old(State()), call)
    {
      if call.headers.token.None? {
        return None;
      }
      var cached := FindOutcome(lib, State(), call);
      if cached.Some? {
        var rejection := CheckCertificate(call.cert, cached.value.token.payload, call.role);
        return if rejection.Some? then rejection
               else Some(Accepted(cached.value.token, cached.value.tier, cached.value.fingerprint));
      }
      ghost var hit := FindToken(lib, State(), call);
      var token := TokenFor(lib, call);
      if token.Err? {
        return Some(ScittFailure(token.error));
      }
      var rejection := CheckCertificate(call.cert, token.value.artifact.payload, call.role);
      if rejection.Some? {
        return rejection;
      }
      var verdict := Complete(lib, call, token.value, hit);
      return Some(verdict);
    }
  }
}
