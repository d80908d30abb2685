# Verified model of the agent verifier

This project models the parts of the agent-name verifier whose guarantees hold over whole runs, and
proves those guarantees. Four machines share one layer of canonical names.

- **Single-use proof admission** (`ReplayCache`, `ReplaySizing`, `PopProof`, `Caller`, `CallerRuns`,
  `CallerHistories`). The bounded memory for proof identifiers with its five-second expiry buckets, the
  check of a possession proof (section 4.3 of RFC 9449), and the call that binds a proof, a status token
  and a receipt to one agent and commits the identifier last (section 11.1 of RFC 9449).
- **Badge verification** (`BadgeCache`, `BadgeRules`, `Records`, `Dane`, `ServerVerifier`,
  `ClientVerifier`, and their properties in `ServerProperties`, `ServerOutcomes`, `PassEffects`,
  `ServerVerdicts`, `ClientProperties`, `ClientVerdicts`, `BadgeRuns`). The badge store with its version index, and the server and client verifiers that drive
  it: cache scan, DNS, fetch all records, fold the errors, refresh once, stale fallback, DANE gate.
- **Verified-artifact caches** (`Caller`, `CallerRuns`, `ScittVerifier`, `ScittRuns`, `AnsVerifier`,
  `TierProperties`). The artifact cache of caller authentication and the two-layer SCITT cache with key
  refresh, and the three tier policies on top.
- **Signed artifacts** (`TrustScope`, `ScittArtifacts`, `Merkle`). Trusted key stores and the digest that
  scopes a cache entry to one of them, status tokens, receipts, and inclusion paths (section 2.1 of
  RFC 9162).
- **Canonical names** (`Text`, `Names`, `Fingerprints`, `Badges`). Versions, host names, ANS names and
  fingerprints, with parsers and printers that undo each other.

Each object the source updates in place is a class whose methods are proved equal to a specification
function on values; the theorems are about those functions and about runs of them.

## What the outside world is

DNS answers, transparency-log answers, TLSA answers, clock readings, key-store refreshes and the result
of hashing the request content are parameters of each call, and every theorem holds for all of them. The
URL, JSON, CBOR, X.509, base64, ECDSA and hash libraries are function-valued fields. Nothing is assumed
of the hash in general: where a cache theorem needs it, the hypothesis is that it does not collide on the
finitely many messages presented in that run. Capacity eviction is an arbitrary step of a run (and, for a
badge insertion, an arbitrary set of dropped keys).

## What the proofs found

- `replay.rs` computes the end of a bucket as `(id + 1) * 5` in 64 bits. For an expiry above
  `i64::MAX - 3` the product does not fit; the model uses the wrapping product of an optimised build.
  `ReplayCache.ReuseRefusedIff` states exactly when an immediate second presentation is refused. Expiries
  saturate there only for enormous skews; `PopProof.RetentionIsEvictable` gives the room that is enough.
- `replay.rs` documents the sizing rule "rate times (skew + grace)". It is short by one bucket: a steady load
  is never refused if and only if the capacity is at least the rate times (skew + ten), the grace being five
  (`CallerRuns.SteadyCapacityExact`; `CallerRuns.DocumentedSizingFallsShort` names the refused request). At the
  defaults that is 769 requests a second, not 800. When proofs may be issued ahead of the verifier's clock, the
  window that must hold fewer accepted proofs than the capacity is exactly twice the skew plus ten seconds
  (`CallerRuns.SizingForSkewExact`).
- Callers that share a single-use memory can accept one proof twice, exactly when the later skew is larger
  or the first record's expiry is above that same bound (`CallerRuns.ReusableIffSkewGrows`).
- The comment in `dns.rs` before the sort of the preferred-badge lookup says that unversioned records go
  last. The comparator puts them first (and a test of the repository expects that); the model follows the code
  (`Records.PreferredRecord`). The sort in `verify.rs` does put them last.
- On a determinate answer the server path and the client's lookup drop the host, but the client's refresh
  path only the certificate's own version (`ClientProperties.RefreshSparesOtherVersions`). So a later outage
  still verifies a certificate of another version, exactly when the cache vouched for it before, less what
  the first fetch evicted (`ClientProperties.RejectionSparesOtherVersions`).
- A terminal badge (expired or revoked) ends a server verification without dropping the host. It settles
  only the version it is stored under, and none if neither its record nor the badge names a version: a
  later outage verifies exactly when the cache holds evidence under another version
  (`ServerOutcomes.OutageUndoesTerminalIff`).
- A badge key built from the raw enum variant with a mixed-case host is invisible to host scans
  (`BadgeCache.RawKeyFoundIff`).
- An inclusion path is accepted by a condition on the index and the path length only, so near the right
  edge of the tree its length is not enforced (`Merkle.AcceptedIff`). The computed root still pins the
  event (`Merkle.WalkProvesInclusion`).

## Reading order

`ReplayCache` and `BadgeRuns` stand best on their own. `CallerRuns.CallSucceedsIff`,
`CallerHistories.ProofSucceedsOnce`, `CallerRuns.CachingIsTransparent`, `CallerRuns.SizingForSkewExact`,
`ServerVerdicts.ServerSucceedsIff`, `ClientVerdicts.ClientSucceedsIff`, `BadgeRuns.ServerSuccessInRun`,
`BadgeRuns.ServerRejectionIsSticky`, `BadgeRuns.ClientRejectionIsSticky`,
`BadgeRuns.OutageNeedsUnsettledVersion`, `ScittRuns.RunsStaySound`, `ScittRuns.ScittCachingIsTransparent`,
`ScittRuns.ScittSuccessIff`, `TierProperties.ServerTierIff` and `Merkle.WalkProvesInclusion` are the main
theorems.

## Model

| member | source | states |
|---|---|---|
| ReplayCache.MemoryReplayCache.CheckAndStore | crates/ans-verify/src/pop/replay.rs:134-164 | one atomic step: evicts, rejects an elapsed window, reports a live key, fails closed at capacity, otherwise records; the buckets stay the index grouped by bucket |
| ReplayCache.MemoryReplayCache.Evict | crates/ans-verify/src/pop/replay.rs:189-204 | drops exactly the entries whose whole bucket is stale and keeps the grouping with no empty bucket |
| ReplayCache.MemoryReplayCache.Add | crates/ans-verify/src/pop/replay.rs:172-176 | records one key and keeps index and buckets in step |
| ReplayCache.MemoryReplayCache.Remove | crates/ans-verify/src/pop/replay.rs:178-187 | forgets one key and drops its bucket when that was the last |
| ReplayCache.DeadlineExact | crates/ans-verify/src/pop/replay.rs:168-204 | bucket eviction is exact to five seconds for all 64-bit expiries up to the bound, negative ones included, and wraps above it |
| ReplayCache.EvictionKeepsLive | crates/ans-verify/src/pop/replay.rs:189-204 | eviction keeps every live entry, and every kept entry expired less than five seconds ago |
| ReplayCache.ReuseRefusedIff | crates/ans-verify/src/pop/replay.rs:134-204 | whatever the cache holds, a proof stored and presented again at once is refused if its expiry is at most the bound, and stored once more otherwise |
| ReplayCache.EntriesAreCommits | crates/ans-verify/src/pop/replay.rs:134-205 | in every run, every index entry is the expiry of an earlier commit of that key |
| ReplayCache.LiveCommitsStay | crates/ans-verify/src/pop/replay.rs:134-205 | in every run, a commit whose own expiry is in range stays recorded under it until it passes, whatever the other expiries |
| ReplayCache.AnswersExact | crates/ans-verify/src/pop/replay.rs:134-205 | in every run, a step answers "replay" exactly when some earlier commit of the key is still held, and "expired" exactly when its own window has passed |
| ReplayCache.RefinesUnboundedMemory | crates/ans-verify/src/pop/replay.rs:134-205 | although buckets are dropped, "replay" is answered exactly when some earlier commit of the key is still live, as soon as the commits of that key are in range; in general exactly when a live one is in range |
| ReplayCache.CommitsOfOneKeyAreDisjoint | crates/ans-verify/src/pop/replay.rs:134-164 | two commits of one key in any interleaving are separated by the first one's expiry, if that one is in range |
| ReplayCache.NeverOverCapacity | crates/ans-verify/src/pop/replay.rs:156-163 | the entry count never exceeds the capacity |
| ReplayCache.SizedRunNeverFull | crates/ans-verify/src/pop/replay.rs:10-19 | with fewer commits than the capacity in each window of lifetime plus five seconds, no step is refused for capacity |
| ReplaySizing.SizingWindowExact | crates/ans-verify/src/pop/replay.rs:10-19 | sparse windows rule out every refusal for capacity if and only if they are at least the lifetime plus five seconds long |
| ReplaySizing.SizingWindowExactEverywhere | crates/ans-verify/src/pop/replay.rs:10-19 | the same bound when the windows may begin at any second, for caches of more than one entry |
| ReplaySizing.SteadyLoadExact | crates/ans-verify/src/pop/replay.rs:10-19 | a steady load from any second on is never refused if and only if the capacity is at least the rate times (lifetime + five) |
| ReplaySizing.SteadyLoadRefused | crates/ans-verify/src/pop/replay.rs:10-19 | a capacity of rate times lifetime refuses the first key of the second in which the first records expire |
| PopProof.FreshnessExact | crates/ans-verify/src/pop/verify.rs:281-307 | the saturating comparison is the exact window, except that the largest skew has no past bound |
| PopProof.DecodedMeans | crates/ans-verify/src/pop/verify.rs:119-137 | a text decodes exactly when it is three non-empty segments within the size limit, with the pinned header, one certificate, a known profile and a 32-byte digest |
| PopProof.JudgementMeans | crates/ans-verify/src/pop/verify.rs:152-187 | a decoded proof is accepted if and only if certificate window, key equality, signature, method, URL, token hash, freshness and identifier length all hold, and what is then returned |
| PopProof.JudgementFails | crates/ans-verify/src/pop/verify.rs:152-187 | the checks of a decoded proof in their order, and which error the first failing one reports |
| PopProof.RetentionCoversWindow | crates/ans-verify/src/pop/verify.rs:180-183 | whenever a proof is fresh its recorded expiry lies ahead by the grace period |
| PopProof.RetentionIsEvictable | crates/ans-verify/src/pop/verify.rs:180-183 | the skew that keeps a recorded expiry within the range where eviction is exact |
| Caller.VerifiedArtifactCache.LeafFor | crates/ans-verify/src/pop/verify.rs:138-151 | the parsed certificate entry, from the cache or parsed and stored |
| Caller.VerifiedArtifactCache.StatusPayloadFor | crates/ans-verify/src/pop/caller.rs:289-321 | a cached token is used only while unexpired, otherwise it is verified again and stored |
| Caller.VerifiedArtifactCache.ReceiptFor | crates/ans-verify/src/pop/caller.rs:327-353 | a cached receipt is returned as is, otherwise it is verified and stored |
| Caller.VerifyCallerWithContent | crates/ans-verify/src/pop/caller.rs:196-281 | the whole call over the single-use memory and the artifact cache, if one is given, with its checks in order and the commit last |
| CallerRuns.AdmittedIff | crates/ans-verify/src/pop/caller.rs:210-281 | a call is admitted exactly when every binding holds, with the freshness window, the token tolerance and the recorded expiry written from the options: two minutes and one minute by default |
| CallerRuns.CallFails | crates/ans-verify/src/pop/caller.rs:196-281 | the checks of a whole call in their order, and which error the first failing one reports |
| CallerRuns.AdmissionHasEvidence | crates/ans-verify/src/pop/caller.rs:210-281 | every admission names the certificate, token and bindings it rests on |
| CallerRuns.EntriesWereVerified | crates/ans-verify/src/pop/cache.rs:58-105 | in every interleaving, each cached artifact was verified under the key store its key names |
| CallerRuns.CachingIsTransparent | crates/ans-verify/src/pop/caller.rs:289-353 | wherever its three lookups fall among other calls with other key stores, clocks and skews, a call decides and records what it would without a cache |
| CallerRuns.CallIsSteps | crates/ans-verify/src/pop/caller.rs:289-353 | a sequential call changes the artifact cache by at most three of the steps that runs are made of |
| CallerRuns.AdmittedCallWarmsCache | crates/ans-verify/src/pop/caller.rs:289-353 | after an admitted call the same artifacts are all hits |
| CallerRuns.FailedCallConsumesNothing | crates/ans-verify/src/pop/caller.rs:277-281 | every live single-use record survives a call; an error adds none; a success found none of its proof and leaves its own |
| CallerRuns.CommitAnswers | crates/ans-verify/src/pop/verify.rs:309-320 | what the commit of an admitted call answers: elapsed, replayed, full or recorded |
| CallerRuns.AcceptedCall | crates/ans-verify/src/pop/caller.rs:196-281 | a success through the caches stands for all the evidence and a fresh single-use record |
| CallerRuns.CallSucceedsIff | crates/ans-verify/src/pop/caller.rs:196-281 | wherever its lookups fall in a run, a call succeeds exactly when all the evidence is there and its use can be recorded |
| CallerRuns.AdmissionIsUse | crates/ans-verify/src/pop/verify.rs:309-320 | what an admitted call commits: the digest of its identifier until issue time plus the configured skew plus grace |
| CallerRuns.ProofAcceptedOnce | crates/ans-verify/src/pop/verify.rs:309-320 | over every interleaving, two acceptances of one proof need a strictly larger skew the second time, if the first record's expiry is in range; nothing is asked of the other uses |
| CallerRuns.ReusableIffSkewGrows | crates/ans-verify/src/pop/verify.rs:180-183 | callers sharing a memory under two skews can reuse a proof if and only if the later skew is larger or the first record's expiry is out of range |
| CallerRuns.SizedForSkew | crates/ans-verify/src/pop/replay.rs:10-19 | one request whose window of twice the skew plus ten seconds holds fewer accepted proofs than the capacity is not refused for capacity |
| CallerRuns.SizingForSkewExact | crates/ans-verify/src/pop/replay.rs:10-19 | such windows rule out every refusal for capacity if and only if they are at least twice the skew plus ten seconds long |
| CallerRuns.SteadyCapacityExact | crates/ans-verify/src/pop/replay.rs:10-19 | the capacity a steady load of proofs needs from any second on, exactly: the rate times (skew + ten) |
| CallerRuns.DocumentedSizingFallsShort | crates/ans-verify/src/pop/replay.rs:10-19 | at every rate, the documented capacity of rate times (skew + grace) refuses a steady load, and which request |
| CallerHistories.AdmissionCommitsProof | crates/ans-verify/src/pop/verify.rs:170-187 | what an admitted call commits is fixed by its proof and skew alone, whatever artifacts its lookups found |
| CallerHistories.HistoryIsRun | crates/ans-verify/src/pop/caller.rs:196-281 | the memory after any interleaved history of calls and sweeps is the memory after the uses their admissions made, whatever the artifact cache answered |
| CallerHistories.ProofSucceedsOnce | crates/ans-verify/src/pop/caller.rs:196-281 | over whole histories of calls through both caches, two successes with one proof need a strictly larger skew the second time, if the first call's record is in range; no hypothesis on hashes or on other calls |
| TrustScope.EncodingDetermined | crates/ans-verify/src/scitt/root_keys.rs:95-115 | the concatenated key encoding is uniquely readable |
| TrustScope.ScopeIgnoresIterationOrder | crates/ans-verify/src/scitt/root_keys.rs:95-115 | the digest of a key store does not depend on the iteration order of its map |
| TrustScope.ArtifactKeyInjective | crates/ans-verify/src/scitt/root_keys.rs:117-124 | without a hash collision, equal cache keys mean the same key store and the same bytes |
| TrustScope.RefreshOnlyAdds | crates/ans-verify/src/scitt/root_keys.rs:154-192 | a refresh keeps every earlier key, and each new id holds the first fetched key with that id |
| ScittArtifacts.LiveTokenMeans | crates/ans-verify/src/scitt/status_token.rs:79-160 | a token verifies exactly when the key it names signed it, its issuer agrees, it is unexpired within the tolerance, at most ten minutes, and it is not terminal |
| ScittArtifacts.ReceiptMeans | crates/ans-verify/src/scitt/receipt.rs:86-180 | a receipt verifies exactly when the key it names signed it for the one supported tree algorithm and its inclusion path leads to the root it reports |
| ScittArtifacts.RefreshKeepsVerdicts | crates/ans-verify/src/scitt/status_token.rs:79-160 | adding keys never changes a verdict some key already supported |
| ScittArtifacts.ReceiptNamesLoggedEvent | crates/ans-verify/src/scitt/receipt.rs:100-180 | a receipt whose root is a log's tree hash is for the event at that index of the log, or shows a collision |
| Merkle.WalkInclusionPath | crates/ans-verify/src/scitt/merkle.rs:81-154 | both loops of the walk compute the root, or the error, of the specification |
| Merkle.AcceptedIff | crates/ans-verify/src/scitt/merkle.rs:81-154 | exactly which index, size and path length are accepted |
| Merkle.WalkAcceptsInclusionProof | crates/ans-verify/src/scitt/merkle.rs:81-154 | the standard's inclusion proof of any leaf leads to the standard's tree hash |
| Merkle.PathLength | crates/ans-verify/src/scitt/merkle.rs:109-114 | the length limit admits every proof of a tree of up to two to the power of that limit |
| Merkle.WalkProvesInclusion | crates/ans-verify/src/scitt/merkle.rs:81-154 | a walk that ends in the log's tree hash is for the event at that very index by its own path, or exhibits a collision |
| BadgeCache.BadgeCache.InsertWithTtl | crates/ans-verify/src/cache.rs:199-214 | stores the badge and lists its version once in the folded host's index |
| BadgeCache.BadgeCache.InvalidateHost | crates/ans-verify/src/cache.rs:315-325 | removes the host's index entry and every listed version |
| BadgeCache.BadgeCache.SetVersions | crates/ans-verify/src/cache.rs:332-342 | replaces the host's versions and drops those no longer listed |
| BadgeCache.BadgeCache.Collect | crates/ans-verify/src/cache.rs:290-312 | the loop gathers the listed versions that are resident and fresh enough, in index order |
| BadgeCache.RunsStayIndexed | crates/ans-verify/src/cache.rs:199-342 | after any sequence of operations and evictions, each resident entry of a folded host is in its index |
| BadgeCache.HostScanIsFullScan | crates/ans-verify/src/cache.rs:280-312 | the host scan returns exactly what a scan of the whole store would |
| BadgeCache.CollectJoins | crates/ans-verify/src/cache.rs:290-312 | a host scan returns its entries in the order of the index |
| BadgeCache.RawKeyFoundIff | crates/ans-verify/src/cache.rs:72-82 | an entry under a raw key is found by its host's scan exactly when the key was folded |
| BadgeCache.FoundExactly | crates/ans-verify/src/cache.rs:107-190 | a lookup returns exactly an entry younger than the hard lifetime and, unless stale ones are allowed, than its own |
| BadgeCache.InvalidatedHostIsGone | crates/ans-verify/src/cache.rs:315-325 | after invalidation no version of the host is resident |
| BadgeCache.InvalidationIsExact | crates/ans-verify/src/cache.rs:315-325 | invalidating a host removes its entries and no others |
| BadgeCache.SetVersionsIsExact | crates/ans-verify/src/cache.rs:332-342 | setting a host's versions keeps exactly its entries of those versions and every other host's |
| BadgeRules.UsableEntriesSurvive | crates/ans-verify/src/verify.rs:561-581 | an accepted configuration never loses to the hard lifetime an entry younger than the staleness bound |
| BadgeRules.AcceptedIff | crates/ans-verify/src/verify.rs:561-581 | a configuration is accepted exactly when some host is trusted and no age the staleness policy admits exceeds the hard lifetime |
| BadgeRules.FoldedErrorUnavailableIff | crates/ans-verify/src/verify.rs:550-559 | in any order, the folded error permits stale evidence exactly when none of the errors is one that settles the question |
| BadgeRules.FoldReports | crates/ans-verify/src/verify.rs:550-559 | the failure reported is the last one that settles the question, or else the last one |
| BadgeRules.BadgeDecisions | crates/ans-verify/src/verify.rs:1070-1179 | a badge verifies exactly when status, fingerprint and hosts (and for clients the ANS name) agree |
| BadgeRules.ServerVerdictKinds | crates/ans-verify/src/verify.rs:1070-1179 | which verdict a badge gets: bad status, mismatch, wrong host or success |
| BadgeRules.ClientVerdictKinds | crates/ans-verify/src/verify.rs:1632-1734 | the same for clients, with the ANS name |
| Records.SortIsStable | crates/ans-verify/src/verify.rs:738-740 | the sort orders, keeps the contents and leaves ties in place |
| Records.NewestRecordsFirst | crates/ans-verify/src/verify.rs:738-740 | records are tried newest version first, unversioned last, all of them and no others |
| Records.PreferredRecord | crates/ans-verify/src/dns.rs:791-807 | the preferred record is exactly the first unversioned one, or else the first of the newest version |
| Records.VersionRecord | crates/ans-verify/src/dns.rs:774-787 | the record for a version is the first that names it or names none |
| Dane.VerifyWith | crates/ans-verify/src/dane.rs:402-487 | the loop returns the first match, or the error its flag calls for |
| Dane.AcceptanceMeans | crates/ans-verify/src/dane.rs:402-487 | acceptance is "disabled", "absent and optional" or "some record matches", whatever the order |
| Dane.CertCheckExtendsFingerprintCheck | crates/ans-verify/src/dane.rs:346-397 | whatever the fingerprint check accepts the certificate check accepts |
| ServerVerifier.ServerVerifier.TryRecords | crates/ans-verify/src/verify.rs:732-801 | the record loop over the shared cache equals the specification pass |
| ServerVerifier.ServerVerifier.VerifyWithRefresh | crates/ans-verify/src/verify.rs:935-1034 | the one refresh: drop the host, look up once more, decide finally |
| ServerVerifier.ServerVerifier.HandleAnsError | crates/ans-verify/src/verify.rs:1216-1291 | determinate errors drop the host, outages may fall back on a young enough cached badge |
| ServerVerifier.ServerVerifier.VerifyServer | crates/ans-verify/src/verify.rs:626-686 | the whole server verification, DANE gate included |
| ServerVerifier.ServerVerifier.PrefetchHost | crates/ans-verify/src/verify.rs:846-928 | prefetch over the shared cache equals its specification |
| ServerProperties.FirstDecisiveWins | crates/ans-verify/src/verify.rs:761-801 | a pass ends with the first fetched badge that is not a fingerprint mismatch, in version order |
| ServerProperties.RefreshOnlyAfterMismatch | crates/ans-verify/src/verify.rs:803-819 | the second lookup is consulted only when every fetched badge mismatched |
| ServerProperties.FetchedFromTrustedLog | crates/ans-verify/src/verify.rs:1041-1067 | every fetched badge is the log's answer for a record with an HTTPS URL on a trusted host |
| ServerProperties.UnpublishedVersionsAreDropped | crates/ans-verify/src/verify.rs:742-750 | versions DNS no longer lists cannot be reused from the cache |
| ServerProperties.PassEntry | crates/ans-verify/src/verify.rs:761-801 | a pass leaves no entry of its host older than the last determinate failure it met |
| ServerProperties.ProcessedExact | crates/ans-verify/src/verify.rs:761-801 | exactly which entries a pass leaves: those it stored and did not purge, store over or push out since, and those it spared |
| PassEffects.PassOverExact | crates/ans-verify/src/verify.rs:732-801 | the same for a whole round, in which the published versions are indexed first |
| ServerProperties.ServerEntry | crates/ans-verify/src/verify.rs:631-686 | every cache entry after a verification is an earlier one, neither purged nor stored over, or a badge it fetched and did not overrule; after a determinate answer none of the host's earlier ones is left, and after an all-mismatch first round nothing that round fetched |
| ServerOutcomes.ScanMeans | crates/ans-verify/src/verify.rs:640-656 | the cache scan succeeds exactly when some fresh entry of the host is evidence |
| ServerOutcomes.FallbackNeedsOutage | crates/ans-verify/src/verify.rs:812-819 | one determinate failure among the records shuts the stale fallback |
| ServerOutcomes.RefreshSucceedsOnlyFresh | crates/ans-verify/src/verify.rs:935-1034 | after the refresh dropped the host, only a freshly fetched badge can succeed |
| ServerOutcomes.ServerSuccess | crates/ans-verify/src/verify.rs:626-686 | every success carries evidence and its source: fetched, fresh in the cache, or stale within the bound under a genuine outage |
| ServerVerdicts.ServerSucceedsIff | crates/ans-verify/src/verify.rs:626-686 | in every world, verification succeeds exactly when the cache vouches, the badge that decides the first lookup is evidence, or, all its badges being mismatches, the one that decides the refresh is |
| ServerVerdicts.RefreshSucceedsIff | crates/ans-verify/src/verify.rs:935-1034 | after the purge the refresh succeeds exactly by the badge that decides the second lookup, and reports it |
| ServerVerdicts.ServerFailureMeans | crates/ans-verify/src/verify.rs:626-1034 | what every failure reports: the DNS answer, the badge that decided, or the fold of the failures |
| ServerVerdicts.OutageMeans | crates/ans-verify/src/error.rs:85-178 | an outage, by name: a failed or timed-out lookup, or for every record a transport failure, an unavailable log or an unknown status |
| ServerVerdicts.SettledAnswerRejects | crates/ans-verify/src/verify.rs:757-769 | after NXDOMAIN, another settled DNS answer, a missing or malformed badge or an untrusted URL, no earlier entry of the host is left and no cached evidence can succeed |
| ServerVerdicts.OutageKeepsEntries | crates/ans-verify/src/verify.rs:1181-1291 | an outage drops nothing but the versions DNS no longer lists |
| ServerOutcomes.OutageSucceedsIff | crates/ans-verify/src/verify.rs:1181-1291 | during an outage of DNS or of the log verification succeeds exactly when the cache alone can, by an entry DNS, if it answered, still lists |
| ServerOutcomes.OutageUndoesTerminalIff | crates/ans-verify/src/verify.rs:761-801 | after a terminal badge decided, a later outage verifies exactly when the cache holds evidence under a version that badge was not stored under; a badge of no parsable version is stored under none |
| ServerOutcomes.TerminalSparesOtherVersions | crates/ans-verify/src/verify.rs:742-801 | the same condition on the cache before the call, when only outages preceded the terminal badge |
| ServerOutcomes.DaneGate | crates/ans-verify/src/verify.rs:690-721 | an outcome of any source passes exactly when it was a success and DANE passed |
| ServerOutcomes.DaneReports | crates/ans-verify/src/verify.rs:690-721 | what the gate reports when it turns a success away: the DNS error, missing records, a record it cannot evaluate, or a mismatch |
| ServerOutcomes.SuccessIsCached | crates/ans-verify/src/verify.rs:640-656 | a success by a fetched badge is answered by the cache alone until its lifetime is over |
| ServerOutcomes.PrefetchReturnsFirstConnectable | crates/ans-verify/src/verify.rs:846-928 | prefetch returns the first connectable badge in version order, or the fold of the failures |
| ServerOutcomes.PrefetchEntry | crates/ans-verify/src/verify.rs:846-928 | prefetch leaves only earlier entries it did not store over and fetched ones no later failure overruled, and none of the host's earlier ones after a determinate answer |
| PassEffects.PrefetchExact | crates/ans-verify/src/verify.rs:846-928 | exactly which entries a prefetch leaves |
| PassEffects.PrefetchAnswersScan | crates/ans-verify/src/verify.rs:846-928 | a prefetched badge that is evidence, not overruled, stored over or pushed out later in the prefetch, answers the next verification from the cache |
| PassEffects.PrefetchReports | crates/ans-verify/src/verify.rs:846-928 | what a prefetch without a connectable badge reports |
| ClientVerifier.ClientVerifier.VerifyClient | crates/ans-verify/src/verify.rs:1477-1630 | the whole client verification over the shared cache |
| ClientVerifier.ClientVerifier.VerifyWithRefresh | crates/ans-verify/src/verify.rs:1736-1794 | the client refresh drops one version and looks up once more |
| ClientVerifier.ClientVerifier.HandleError | crates/ans-verify/src/verify.rs:1796-1852 | both client error handlers |
| ClientProperties.ClaimsMeans | crates/ans-verify/src/verify.rs:182-198 | the host and ANS name a certificate claims: the first DNS name or else the common name, and the first usable ANS name |
| ClientVerdicts.ChoiceMeans | crates/ans-verify/src/dns.rs:774-807 | which record a client asks for: the first that suits its own version, and only without one the preferred record |
| ClientVerdicts.LookupKinds | crates/ans-verify/src/error.rs:85-178 | which client lookups are outages and which settle the question, by the names of the answers |
| ClientVerdicts.ClientSucceedsIff | crates/ans-verify/src/verify.rs:1477-1852 | in every world, a client verifies with a badge exactly in one of five ways: fresh evidence, a mismatch and then the refresh, the lookup, its mismatch and then the refresh, or an outage |
| ClientVerdicts.ClientFailureMeans | crates/ans-verify/src/verify.rs:1477-1852 | what every client failure reports: a DNS answer, a fetch error, that nothing is published, or the badge that condemns it |
| ClientVerdicts.SettledAnswerRejects | crates/ans-verify/src/verify.rs:1796-1852 | after a settled answer to the lookup no entry of the host is left and the client fails, cached evidence notwithstanding |
| ClientVerdicts.OutageKeepsEntries | crates/ans-verify/src/verify.rs:1796-1852 | an outage leaves the entries, except of a version known to be unpublished |
| ClientProperties.ClientEntry | crates/ans-verify/src/verify.rs:1477-1852 | which earlier entries each kind of answer removes or stores over, and that a new one is the last lookup's badge for the certificate's own version |
| ClientProperties.RefreshSparesOtherVersions | crates/ans-verify/src/verify.rs:1736-1794 | every other entry survives the client's refresh whatever it answers, unless a new badge evicts it |
| ClientProperties.FailedRefreshLeaves | crates/ans-verify/src/verify.rs:1610-1782 | a mismatch, cached or fetched, whose refresh finds no badge removes its own version and, of the rest, only what the first fetch evicted |
| ClientProperties.ClientOutageSucceedsIff | crates/ans-verify/src/verify.rs:1796-1852 | during an outage a client verifies exactly when the cache alone vouches for it |
| ClientProperties.RejectionSparesOtherVersions | crates/ans-verify/src/verify.rs:1736-1794 | after a mismatch, cached or fetched, whose refresh finds no badge, an outage verifies another version exactly when the cache vouched for it before, less the evictions |
| ClientProperties.ClientSuccessIsCached | crates/ans-verify/src/verify.rs:1512-1530 | the same for clients |
| ClientProperties.ClientSuccess | crates/ans-verify/src/verify.rs:1477-1630 | every client success carries evidence for the claimed host and ANS name, and its source |
| BadgeRuns.EntryProvenance | crates/ans-verify/src/verify.rs:631-1852 | in every run of verifiers with their own settings over one shared cache, each entry is the last one stored under its key, by an event that did not overrule it, and no event since purged it or stored over it |
| BadgeRuns.TrustCarriesOver | crates/ans-verify/src/verify.rs:521-541 | a shared entry came from an HTTPS URL the reader trusts as soon as the reader trusts what the fetcher does |
| BadgeRuns.ServerSuccessInRun | crates/ans-verify/src/verify.rs:626-686 | in every run, a server success has evidence, passed DANE, and its badge was fetched now, or earlier within the lifetime or, in an outage, the staleness bound |
| BadgeRuns.ClientSuccessInRun | crates/ans-verify/src/verify.rs:1477-1630 | the same for clients, with cached evidence for the certificate's own version |
| BadgeRuns.RejectionStarts | crates/ans-verify/src/verify.rs:631-1839 | which events reject a host: server checks and client lookups that meet a determinate answer, a refresh that finds nothing after an all-mismatch round, and mixed prefetches whose last word is adverse |
| BadgeRuns.OutageCannotUndoServerRejection | crates/ans-verify/src/verify.rs:1181-1291 | once an event purged a host and left nothing, outages cannot verify its servers until something is stored for it again |
| BadgeRuns.ServerRejectionIsSticky | crates/ans-verify/src/verify.rs:935-1291 | the two together: rejection by a server check, a prefetch or a client's lookup, anything that stores nothing for the host, outage, no success |
| BadgeRuns.HostRejectionReachesClients | crates/ans-verify/src/verify.rs:1804-1852 | the same rejections hold against clients of every version with nothing stored since |
| BadgeRuns.VersionRejectionStarts | crates/ans-verify/src/verify.rs:1736-1782 | which client checks reject their own version, a mismatch followed by a failed refresh included |
| BadgeRuns.OutageCannotUndoVersionRejection | crates/ans-verify/src/verify.rs:1796-1852 | a version purged alone cannot be verified by outages until something is stored for it again |
| BadgeRuns.ClientRejectionIsSticky | crates/ans-verify/src/verify.rs:1736-1852 | the two together for one version |
| BadgeRuns.OutageCannotUndoClientRejection | crates/ans-verify/src/verify.rs:1796-1852 | after a whole-host purge the same for clients of every version |
| BadgeRuns.SettledIsUnusable | crates/ans-verify/src/verify.rs:631-1852 | a version whose last stored badge is terminal, or that was purged, holds no connectable badge until something is stored for it |
| BadgeRuns.OutageNeedsUnsettledVersion | crates/ans-verify/src/verify.rs:1181-1291 | in every run, an outage verifies a server only by evidence under a version whose last answer was neither a purge nor a terminal badge |
| BadgeRuns.OutageCannotUndoSettledVersion | crates/ans-verify/src/verify.rs:1796-1852 | in every run, an outage verifies no client of a version whose last answer was a purge or a terminal badge |
| BadgeRuns.ServerTerminalSettles | crates/ans-verify/src/verify.rs:761-801 | a server check that ends with a terminal badge, in either round, settles the version that badge is stored under |
| BadgeRuns.ClientTerminalSettles | crates/ans-verify/src/verify.rs:1590-1782 | a client check whose last lookup brought a terminal badge settles its version |
| ScittVerifier.ScittVerificationCache.TryScitt | crates/ans-verify/src/verify.rs:2388-2580 | verification with both cache layers and key refresh equals the specification, and what it stores |
| ScittVerifier.StorableConclusion | crates/ans-verify/src/verify.rs:2508-2572 | an outcome is stored only when no refresh took part in it |
| ScittRuns.RunsStaySound | crates/ans-verify/src/verify.rs:2399-2572 | after any interleaving with any snapshots and refreshes, every token, receipt and outcome was verified entirely under the snapshot of its key |
| ScittRuns.CallKeepsSound | crates/ans-verify/src/verify.rs:2388-2580 | a call run on its own keeps that invariant |
| ScittRuns.ScittCachingIsTransparent | crates/ans-verify/src/verify.rs:2388-2580 | wherever its lookups fall in a run, a call decides what it would without a cache, refreshes and both roles included |
| ScittRuns.ScittSuccessMeans | crates/ans-verify/src/verify.rs:2583-2658 | every success is by that evidence and carries no badge of its own |
| ScittRuns.ScittSuccessIff | crates/ans-verify/src/verify.rs:2428-2580 | exactly when a call succeeds, key refreshes included: the peer agrees and token and receipt are evidence, each under the snapshot then current or, exactly if that lacks its key, under the refreshed one |
| ScittRuns.SuccessWarmsCache | crates/ans-verify/src/verify.rs:2555-2572 | after a success without a refresh the outcome cache answers until the token expires |
| ScittRuns.VerifiedTokenIsCached | crates/ans-verify/src/verify.rs:2428-2470 | a token verified under the first snapshot is a hit afterwards until it expires, however the call ends |
| ScittRuns.VerifiedReceiptIsCached | crates/ans-verify/src/verify.rs:2508-2555 | so is a receipt verified under it once the peer is accepted |
| AnsVerifier.AnsVerifier.VerifyServerWithScitt | crates/ans-verify/src/verify.rs:2106-2193 | the three server policies: outcome, badge cache, and what is left in the SCITT cache |
| AnsVerifier.AnsVerifier.VerifyClientWithScitt | crates/ans-verify/src/verify.rs:2200-2266 | the three client policies: outcome, badge cache, and what is left in the SCITT cache |
| TierProperties.NoServerDowngrade | crates/ans-verify/src/verify.rs:2130-2193 | with SCITT active, any presented header and success imply a status token and SCITT evidence, the full tier exactly with a receipt, and the DANE gate |
| TierProperties.NoClientDowngrade | crates/ans-verify/src/verify.rs:2216-2266 | the same for clients |
| TierProperties.WithoutHeaders | crates/ans-verify/src/verify.rs:2286-2296 | without headers only a badge can succeed, and under the strict policy nothing |
| TierProperties.ServerTierIff | crates/ans-verify/src/verify.rs:2106-2193 | under each policy, and without SCITT, exactly when a server succeeds by its badge, by SCITT evidence, or by both |
| TierProperties.ClientTierIff | crates/ans-verify/src/verify.rs:2200-2266 | the same for clients |
| TierProperties.ServerTierReports | crates/ans-verify/src/verify.rs:2106-2193 | what a success reports: the badge, the SCITT outcome, or that outcome with the badge it enhances |
| TierProperties.ServerTierFails | crates/ans-verify/src/verify.rs:2106-2193 | what a failure under an active policy reports: the badge verdict, the SCITT failure, the missing token, or the DANE failure |
| TierProperties.ClientTierFails | crates/ans-verify/src/verify.rs:2200-2266 | the same for clients |
| TierProperties.AttemptSucceedsIff | crates/ans-verify/src/verify.rs:2388-2580 | in every run an attempt succeeds exactly when there is SCITT evidence |
| Names.VersionRoundTrip | crates/ans-types/src/types.rs:150-184 | parsing a printed version gives it back |
| Names.VersionParses | crates/ans-types/src/types.rs:150-184 | exactly which texts are versions: three 32-bit numbers, with at most one v before them |
| Names.PrintedVersion | crates/ans-types/src/types.rs:150-184 | a version prints as the one text of its numbers without superfluous zeros |
| Names.FqdnImage | crates/ans-types/src/types.rs:17-49 | host parsing produces exactly the canonical names and leaves them alone |
| Names.CanonicalForm | crates/ans-types/src/types.rs:17-49 | the canonical hosts: labels of up to 63 lower-case letters, digits and inner hyphens |
| Names.FqdnAccepts | crates/ans-types/src/types.rs:17-49 | exactly which texts are host names, and which name each denotes |
| Names.FqdnDenotes | crates/ans-types/src/types.rs:17-49 | a text denotes a host exactly when it is that host in any letter case followed by any number of dots |
| Names.AnsNameRoundTrip | crates/ans-types/src/types.rs:231-272 | parsing a printed ANS name gives it back, even when host labels are digits |
| Names.AnsNameParses | crates/ans-types/src/types.rs:231-265 | exactly which texts are ANS names: the scheme, a version and a host, separated by dots |
| Names.ParsedAnsNameValid | crates/ans-types/src/types.rs:231-265 | every parsed ANS name has 32-bit version parts and a canonical host |
| Names.PrintedComparison | crates/ans-verify/src/verify.rs:1707-1707 | the client's string comparison decides equality of names against any printed form |
| Fingerprints.HexDecodeExact | crates/ans-types/src/fingerprint.rs:51-73 | hex decoding accepts exactly the hex forms of its result |
| Fingerprints.MatchesExact | crates/ans-types/src/fingerprint.rs:51-98 | a text matches a fingerprint exactly when it is one of its prefixed hex forms, the printed one included |

## Left out

- HTTP, DNS transport, TLS, the request code of the log client and the rustls adapters: replaced by arbitrary answers.
- Cryptography and library parsers: function-valued fields; only hash collisions are ever hypothesised away, per run.
- Concurrency inside one badge verification: badge runs interleave whole verifications, not their internal awaits; `BadgeCache::clear`, which does not hold the index lock while it empties the store, is atomic here. The single-use memory and both artifact caches are modelled at the grain of single atomic accesses.
- Time inside a call: one clock reading per lookup round of a badge verification and one per SCITT or caller verification; the commit of a proof has its own.
- Badge insertions made directly by the application through the public cache are not events of a run.
- `Fqdn` values that bypass `Fqdn::new` through the derived deserializer: hosts are required to be canonical.
- Text is a sequence of single-octet characters, so length limits count characters; case folding is ASCII everywhere (the cache key of a raw host uses Unicode folding, which agrees on host names).
- `normalize_htu`, `normalize_authority` and the trimming of allow-list entries: uninterpreted functions.
- Replay backends other than the in-memory one, and their timeouts.
- TXT and SVCB record parsing, discovery, serde models, builders, presets and error texts: only easy members.
- The sort of `find_preferred_badge` is a function here, although the source sorts a vector in place; no aliasing is involved.
- Error values keep their kind; messages and nested sources are dropped, and all CBOR and COSE structure errors are one kind.
