/** Verification of signed status tokens and inclusion receipts, and the binding between them. */
module ScittArtifacts {
  import opened Wrappers
  import opened Text
  import opened Clock
  import opened Fingerprints
  import opened Names
  import opened Badges
  import opened TrustScope
  import opened Outcomes
  import Merkle

  const MAX_CLOCK_SKEW_TOLERANCE_SECS: nat := 600
  const RFC9162_SHA256: int := 1

  /** The parts of a COSE_Sign1 message that verification reads. */
  datatype Cose = Cose(kid: KeyId, iss: Option<Bytes>, vds: Option<int>, payload: Bytes, signature: Bytes, protected: Bytes)

  datatype InclusionProof = InclusionProof(treeSize: nat, leafIndex: nat, path: seq<Fingerprint>)

  /** The registration event inside a receipt. */
  datatype LeafIdentity = LeafIdentity(ansName: string, ansId: Option<string>, host: Option<string>)

  datatype Receipt = Receipt(treeSize: nat, leafIndex: nat, rootHash: Fingerprint, event: Bytes, keyId: KeyId)

  /** The CBOR, JSON, ECDSA and hash libraries. */
  datatype Library = Library(
    sha256: Bytes -> Fingerprint,
    parseCose: Bytes -> Result<Cose, ScittError>,
    sigStructure: Cose -> Result<Bytes, ScittError>,
    signatureEncoded: Bytes -> bool,
    ecdsa: (Point, Bytes, Bytes) -> bool,
    decodeToken: Bytes -> Result<StatusPayload, ScittError>,
    inclusionProof: Cose -> Result<InclusionProof, ScittError>,
    leafIdentity: Bytes -> Option<LeafIdentity>)

  function KeyFor(store: KeyStore, kid: KeyId): Result<TrustedKey, ScittError> {
    if kid in store.keys then Ok(store.keys[kid]) else Err(UnknownKeyId(kid))
  }

  predicate IssuerAgrees(cose: Cose, key: TrustedKey) {
    cose.iss.Some? ==> cose.iss.value == key.name
  }

  // ----- status tokens -----

  /** Everything about a token that does not depend on the time. */
  function OpenToken(lib: Library, store: KeyStore, token: Bytes): Result<VerifiedToken, ScittError> {
    var cose :- lib.parseCose(token);
    var message :- lib.sigStructure(cose);
    if !lib.signatureEncoded(cose.signature) then Err(SignatureInvalid)
    else
      var key :- KeyFor(store, cose.kid);
      if !lib.ecdsa(key.point, message, cose.signature) then Err(SignatureInvalid)
      else if !IssuerAgrees(cose, key) then Err(IssuerMismatch)
      else
        var payload :- lib.decodeToken(cose.payload);
        Ok(VerifiedToken(payload, cose.kid))
  }

  function Tolerance(skew: Duration): int {
    if skew.secs > MAX_CLOCK_SKEW_TOLERANCE_SECS then MAX_CLOCK_SKEW_TOLERANCE_SECS else skew.secs
  }

  predicate Unexpired(payload: StatusPayload, skew: Duration, now: int) {
    now <= SatAdd(payload.exp, Tolerance(skew))
  }

  function VerifyTokenAt(lib: Library, store: KeyStore, token: Bytes, skew: Duration, now: int)
    : Result<VerifiedToken, ScittError>
  {
    var verified :- OpenToken(lib, store, token);
    if !Unexpired(verified.payload, skew, now) then Err(TokenExpired(verified.payload.exp, now))
    else if verified.payload.status.ShouldReject() then Err(TerminalStatus(verified.payload.status))
    else Ok(verified)
  }

  // ----- what verification means -----

  /** Signed by the key the store holds under the message's key id, whose name agrees with the issuer, if one is given. */
  ghost predicate SignedUnder(lib: Library, store: KeyStore, cose: Cose) {
    && cose.kid in store.keys && lib.sigStructure(cose).Ok? && lib.signatureEncoded(cose.signature)
    && lib.ecdsa(store.keys[cose.kid].point, lib.sigStructure(cose).value, cose.signature)
    && (cose.iss == None || cose.iss == Some(store.keys[cose.kid].name))
  }

  ghost predicate SignedToken(lib: Library, store: KeyStore, token: Bytes, t: VerifiedToken) {
    && lib.parseCose(token).Ok?
    && var cose := lib.parseCose(token).value;
    SignedUnder(lib, store, cose) && t.keyId == cose.kid && lib.decodeToken(cose.payload) == Ok(t.payload)
  }

  /** Signed, not expired for longer than the tolerance, which is at most ten minutes, and not in a terminal state. */
  ghost predicate LiveToken(lib: Library, store: KeyStore, token: Bytes, skew: nat, now: int, t: VerifiedToken) {
    && SignedToken(lib, store, token, t)
    && now <= t.payload.exp + (if skew > 600 then 600 else skew)
    && t.payload.status != Revoked && t.payload.status != ExpiredStatus
  }

  lemma OpenTokenMeans(lib: Library, store: KeyStore, token: Bytes, t: VerifiedToken)
    ensures OpenToken(lib, store, token) == Ok(t) <==> SignedToken(lib, store, token, t)
  {}

  lemma LiveTokenMeans(lib: Library, store: KeyStore, token: Bytes, skew: Duration, now: int, t: VerifiedToken)
    requires IsI64(now)
    ensures VerifyTokenAt(lib, store, token, skew, now) == Ok(t) <==> LiveToken(lib, store, token, skew.secs, now, t)
  {
    hide OpenToken, SignedToken;
    OpenTokenMeans(lib, store, token, t);
  }

  /** The message names a key that the store does not hold. */
  ghost predicate LacksKey(lib: Library, store: KeyStore, artifact: Bytes) {
    lib.parseCose(artifact).Ok? && lib.parseCose(artifact).value.kid !in store.keys
  }

  // ----- receipts -----

  function VerifyReceipt(lib: Library, store: KeyStore, receipt: Bytes): Result<Receipt, ScittError> {
    var cose :- lib.parseCose(receipt);
    if cose.vds != Some(RFC9162_SHA256) then Err(InvalidProtectedHeader)
    else
      var key :- KeyFor(store, cose.kid);
      if !IssuerAgrees(cose, key) then Err(IssuerMismatch)
      else
        var message :- lib.sigStructure(cose);
        if !lib.signatureEncoded(cose.signature) || !lib.ecdsa(key.point, message, cose.signature)
        then Err(SignatureInvalid)
        else
          var proof :- lib.inclusionProof(cose);
          match Merkle.Walked(lib.sha256, cose.payload, proof.leafIndex, proof.treeSize, proof.path)
          case Err(_) => Err(InvalidMerkleProof)
          case Ok(root) => Ok(Receipt(proof.treeSize, proof.leafIndex, root, cose.payload, cose.kid))
  }

  /**
   * A receipt whose root is the hash of a log the monitor holds is for the event at that index of the
   * log, or exhibits a hash collision.
   */
  lemma ReceiptNamesLoggedEvent(lib: Library, store: KeyStore, bytes: Bytes, leaves: seq<Bytes>, log: Merkle.Tree)
    returns (pair: (Bytes, Bytes))
    requires VerifyReceipt(lib, store, bytes).Ok? && leaves != [] && log == Merkle.TreeOf(leaves)
    requires var r := VerifyReceipt(lib, store, bytes).value;
             r.treeSize == |leaves| && r.rootHash == Merkle.TreeHash(lib.sha256, log)
    ensures var r := VerifyReceipt(lib, store, bytes).value;
            Merkle.Collision(lib.sha256, pair) || (r.leafIndex < |leaves| && leaves[r.leafIndex] == r.event)
  {
    var r := VerifyReceipt(lib, store, bytes).value;
    var proof := lib.inclusionProof(lib.parseCose(bytes).value).value;
    pair := Merkle.WalkProvesInclusion(lib.sha256, leaves, log, r.event, r.leafIndex, proof.path);
  }

  /** Signed, of the one supported tree algorithm, with an inclusion path that leads to the receipt's root. */
  ghost predicate SignedReceipt(lib: Library, store: KeyStore, bytes: Bytes, r: Receipt) {
    && lib.parseCose(bytes).Ok?
    && var cose := lib.parseCose(bytes).value;
    && cose.vds == Some(1) && SignedUnder(lib, store, cose) && lib.inclusionProof(cose).Ok?
    && var proof := lib.inclusionProof(cose).value;
    && Merkle.Walked(lib.sha256, cose.payload, proof.leafIndex, proof.treeSize, proof.path) == Ok(r.rootHash)
    && r.treeSize == proof.treeSize && r.leafIndex == proof.leafIndex && r.event == cose.payload && r.keyId == cose.kid
  }

  lemma ReceiptMeans(lib: Library, store: KeyStore, bytes: Bytes, r: Receipt)
    ensures VerifyReceipt(lib, store, bytes) == Ok(r) <==> SignedReceipt(lib, store, bytes, r)
  {
    hide Merkle.Walked;
  }

  /** Adding keys to a store never changes a verdict that some key already supported. */
  lemma RefreshKeepsVerdicts(lib: Library, store: KeyStore, larger: KeyStore, artifact: Bytes)
    requires forall kid :: kid in store.keys ==> kid in larger.keys && larger.keys[kid] == store.keys[kid]
    ensures OpenToken(lib, store, artifact).Ok? ==> OpenToken(lib, larger, artifact) == OpenToken(lib, store, artifact)
    ensures VerifyReceipt(lib, store, artifact).Ok? ==>
              VerifyReceipt(lib, larger, artifact) == VerifyReceipt(lib, store, artifact)
  {}

  // ----- a receipt and a token of one registration -----

  function BindReceiptToStatus(lib: Library, receipt: Receipt, status: StatusPayload, expectedHost: Option<string>)
    : Result<(), ScittError>
  {
    match lib.leafIdentity(receipt.event)
    case None => Err(InvalidReceiptIdentity)
    case Some(leaf) =>
      if !EqIgnoreCase(leaf.ansName, PrintAnsName(status.name)) then Err(IdentityBinding)
      else if leaf.ansId.Some? && leaf.ansId.value != status.agentId then Err(IdentityBinding)
      else if expectedHost.None? then Ok(())
      else if leaf.host.None? then Err(InvalidReceiptIdentity)
      else if !EqIgnoreCase(leaf.host.value, expectedHost.value) then Err(IdentityBinding)
      else Ok(())
  }

  /** The receipt's event and the token name the same agent, and the host when one is expected. */
  ghost predicate SameRegistration(lib: Library, receipt: Receipt, status: StatusPayload, expectedHost: Option<string>) {
    && lib.leafIdentity(receipt.event).Some?
    && var leaf := lib.leafIdentity(receipt.event).value;
    && Lower(leaf.ansName) == Lower(PrintAnsName(status.name))
    && (leaf.ansId == None || leaf.ansId == Some(status.agentId))
    && (expectedHost.Some? ==> leaf.host.Some? && Lower(leaf.host.value) == Lower(expectedHost.value))
  }

  lemma BindingMeans(lib: Library, receipt: Receipt, status: StatusPayload, expectedHost: Option<string>)
    ensures BindReceiptToStatus(lib, receipt, status, expectedHost).Ok?
            <==> SameRegistration(lib, receipt, status, expectedHost)
  {}

  /** Hosts that agree up to case bind the same receipts. */
  lemma BindingIgnoresHostCase(lib: Library, receipt: Receipt, status: StatusPayload, a: string, b: string)
    requires EqIgnoreCase(a, b)
    ensures BindReceiptToStatus(lib, receipt, status, Some(a)) == BindReceiptToStatus(lib, receipt, status, Some(b))
  {}
}
