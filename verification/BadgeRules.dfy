/** Decisions on a single badge or error, shared by the server and the client verifier. */
module BadgeRules {
  import opened Wrappers
  import opened Text
  import opened Fingerprints
  import opened Names
  import opened Badges
  import opened BadgeCache
  import opened Outcomes
  import opened Records
  import Dane

  datatype Url = Url(scheme: string, host: Option<string>)

  datatype FailurePolicy = FailClosed | FailOpenWithCache(maxStaleness: nat)

  /** A verifier's settings; `parseUrl` stands for the URL library, `digests` for the hash library. */
  datatype Config = Config(
    caching: bool,
    lifetimes: CacheConfig,
    policy: FailurePolicy,
    dane: Dane.Policy,
    trusted: Option<set<string>>,
    parseUrl: string -> Option<Url>,
    digests: Dane.Digests)

  // ----- configuration -----

  predicate ConfigurationAccepted(trusted: Option<set<string>>, cache: Option<CacheConfig>, policy: FailurePolicy) {
    && trusted.Some? && trusted.value != {}
    && (cache.Some? && policy.FailOpenWithCache? ==>
          policy.maxStaleness <= cache.value.hardTtl || policy.maxStaleness <= cache.value.defaultTtl)
  }

  /** An accepted configuration never loses to the hard lifetime an entry its policy could still use. */
  lemma UsableEntriesSurvive(
    trusted: Option<set<string>>, raw: CacheConfig, policy: FailurePolicy, s: CacheState, now: nat, key: CacheKey)
    requires ConfigurationAccepted(trusted, Some(raw), policy) && policy.FailOpenWithCache?
    requires key in s.store && Within(s.store[key].fetchedAt, now, policy.maxStaleness)
    ensures GetAllowStale(s, Clamped(raw).hardTtl, now, key) == Some(s.store[key])
  {}

  /**
   * Exactly which configurations are accepted: some trusted host, and, with a cache and the fail-open
   * policy, no age that the policy admits but the hard lifetime does not.
   */
  lemma AcceptedIff(trusted: Option<set<string>>, cache: Option<CacheConfig>, policy: FailurePolicy)
    ensures ConfigurationAccepted(trusted, cache, policy)
            <==> && trusted.Some? && (exists host :: host in trusted.value)
                 && (cache.Some? && policy.FailOpenWithCache? ==>
                       forall at, now :: Within(at, now, policy.maxStaleness) ==> Within(at, now, Clamped(cache.value).hardTtl))
  {
    if trusted.Some? && trusted.value != {} {
      var host :| host in trusted.value;
    }
    if cache.Some? && policy.FailOpenWithCache? {
      HardLifetime(cache.value);
      if policy.maxStaleness > Clamped(cache.value).hardTtl {
        assert Within(0, Clamped(cache.value).hardTtl, policy.maxStaleness);
      }
    }
  }

  // ----- fetching -----

  function ValidateBadgeDomain(cfg: Config, url: string): Result<(), TlogError> {
    match cfg.parseUrl(url)
    case None => Err(InvalidUrl)
    case Some(parsed) =>
      if parsed.scheme != "https" then Err(InvalidUrl)
      else if parsed.host.None? then Err(InvalidUrl)
      else if cfg.trusted.Some? && parsed.host.value in cfg.trusted.value then Ok(())
      else Err(UntrustedDomain)
  }

  function RequireKnownStatus(badge: Badge): Result<Badge, TlogError> {
    if badge.status.Unknown? then Err(StatusUnknown) else Ok(badge)
  }

  /** The log is asked only about a URL that passed the domain check. */
  function FetchOne(cfg: Config, url: string, answer: Result<Badge, TlogError>): Result<Badge, TlogError> {
    var _ :- ValidateBadgeDomain(cfg, url);
    var badge :- answer;
    RequireKnownStatus(badge)
  }

  predicate TrustedUrl(cfg: Config, url: string) {
    && cfg.parseUrl(url).Some?
    && cfg.parseUrl(url).value.scheme == "https"
    && cfg.parseUrl(url).value.host.Some?
    && cfg.trusted.Some?
    && cfg.parseUrl(url).value.host.value in cfg.trusted.value
  }

  lemma FetchedMeans(cfg: Config, url: string, answer: Result<Badge, TlogError>, badge: Badge)
    ensures FetchOne(cfg, url, answer) == Ok(badge)
            <==> TrustedUrl(cfg, url) && answer == Ok(badge) && !badge.status.Unknown?
  {}

  /** How a fetch fails: a URL that is not trusted settles it, an unknown status does not. */
  lemma FetchFails(cfg: Config, url: string, answer: Result<Badge, TlogError>)
    ensures !TrustedUrl(cfg, url) ==>
              FetchOne(cfg, url, answer).Err? && FetchOne(cfg, url, answer).error in {InvalidUrl, UntrustedDomain}
    ensures TrustedUrl(cfg, url) && answer.Err? ==> FetchOne(cfg, url, answer) == answer
    ensures TrustedUrl(cfg, url) && answer.Ok? && answer.value.status == Unknown ==>
              FetchOne(cfg, url, answer) == Err(StatusUnknown)
  {}

  // ----- folding transparency-log errors -----

  function RecordTlogError(previous: Option<AnsError>, error: TlogError): Option<AnsError> {
    if !error.IsUnavailable()
       || !(previous.Some? && previous.value.TransparencyLog? && !previous.value.tlog.IsUnavailable())
    then Some(TransparencyLog(error))
    else previous
  }

  function FoldErrors(errors: seq<TlogError>): Option<AnsError> {
    if errors == [] then None
    else RecordTlogError(FoldErrors(errors[..|errors| - 1]), errors[|errors| - 1])
  }

  /**
   * An outage never masks adverse evidence: whatever the order, the folded error permits stale
   * evidence exactly when every single error was an outage.
   */
  lemma {:induction false} FoldedErrorUnavailableIff(errors: seq<TlogError>)
    requires errors != []
    ensures FoldErrors(errors).Some? && FoldErrors(errors).value.TransparencyLog?
    ensures FoldErrors(errors).value.MayUseStale() <==> forall e :: e in errors ==> !LogAnswered(e)
  {
    var n := |errors| - 1;
    var front, last := errors[..n], errors[n];
    assert FoldErrors(errors) == RecordTlogError(FoldErrors(front), last);
    LogErrorsSplit(last);
    if n == 0 {
      assert front == [] && errors == [last];
    } else {
      FoldedErrorUnavailableIff(front);
      assert errors == front + [last];
    }
  }

  /** None of these failures settles a question. */
  ghost predicate AllOutages(errors: seq<TlogError>) {
    forall e :: e in errors ==> !LogAnswered(e)
  }

  /** The failure that is reported: the last one that settles a question, or else the last one. */
  ghost predicate Reported(errors: seq<TlogError>, e: TlogError) {
    exists before, after :: ReportedBetween(errors, before, e, after)
  }

  ghost predicate ReportedBetween(errors: seq<TlogError>, before: seq<TlogError>, e: TlogError, after: seq<TlogError>) {
    && errors == before + [e] + after && AllOutages(after)
    && (LogAnswered(e) || (after == [] && AllOutages(before)))
  }

  lemma {:induction false} FoldReports(errors: seq<TlogError>)
    requires errors != []
    ensures FoldErrors(errors).Some? && FoldErrors(errors).value.TransparencyLog?
    ensures Reported(errors, FoldErrors(errors).value.tlog)
  {
    hide LogAnswered;
    var n := |errors| - 1;
    var front, last := errors[..n], errors[n];
    LogErrorsSplit(last);
    assert FoldErrors(errors) == RecordTlogError(FoldErrors(front), last);
    if n > 0 {
      FoldReports(front);
      var e := FoldErrors(front).value.tlog;
      LogErrorsSplit(e);
      if LogAnswered(last) || !LogAnswered(e) {
        LastIsReported(errors, front, last, e);
      } else {
        EarlierIsReported(errors, front, last, e);
      }
    } else {
      assert ReportedBetween(errors, [], last, []);
    }
  }

  lemma LastIsReported(errors: seq<TlogError>, front: seq<TlogError>, last: TlogError, e: TlogError)
    requires errors == front + [last] && Reported(front, e) && (LogAnswered(last) || !LogAnswered(e))
    ensures Reported(errors, last)
  {
    hide LogAnswered;
    var before, after :| ReportedBetween(front, before, e, after);
    assert ReportedBetween(errors, front, last, []);
  }

  lemma EarlierIsReported(errors: seq<TlogError>, front: seq<TlogError>, last: TlogError, e: TlogError)
    requires errors == front + [last] && Reported(front, e) && !LogAnswered(last) && LogAnswered(e)
    ensures Reported(errors, e)
  {
    hide LogAnswered;
    var before, after :| ReportedBetween(front, before, e, after);
    assert errors == before + [e] + (after + [last]);
    assert ReportedBetween(errors, before, e, after + [last]);
  }

  // ----- one badge against one certificate -----

  function FirstOr(texts: seq<string>, default: string): string {
    if texts == [] then default else texts[0]
  }

  /** Server rule: status, fingerprint, then both hosts against the dialed one. */
  function VerifyServerBadge(badge: Badge, cert: CertIdentity, dialed: string): Outcome {
    var prints := ServerFingerprints(badge);
    if !badge.status.ValidForConnection() then InvalidStatus(badge)
    else if !Lists(prints, cert.fingerprint) then
      FingerprintMismatch(FirstOr(prints, ""), Print(cert.fingerprint), badge)
    else if !EqIgnoreCase(badge.host, dialed) then HostnameMismatch(dialed, badge.host, badge)
    else if !EqIgnoreCase(cert.Host(), dialed) then HostnameMismatch(dialed, cert.Host(), badge)
    else Verified(badge, cert.fingerprint)
  }

  /** Client rule: status, identity fingerprint, host, then the printed ANS name. */
  function VerifyClientBadge(badge: Badge, cert: CertIdentity, name: AnsName): Outcome {
    var prints := IdentityFingerprints(badge);
    if !badge.status.ValidForConnection() then InvalidStatus(badge)
    else if !Lists(prints, cert.fingerprint) then
      FingerprintMismatch(FirstOr(prints, ""), Print(cert.fingerprint), badge)
    else if !EqIgnoreCase(cert.Host(), badge.host) then HostnameMismatch(badge.host, cert.Host(), badge)
    else if PrintAnsName(name) != badge.name then AnsNameMismatch(badge.name, PrintAnsName(name), badge)
    else Verified(badge, cert.fingerprint)
  }

  /** The badge may be connected to but does not vouch for this server certificate. */
  ghost predicate ServerMismatch(badge: Badge, cert: CertIdentity) {
    Connectable(badge.status) && !Vouches(badge.schema, badge.serverCerts, badge.serverCert, cert.fingerprint)
  }

  ghost predicate ClientMismatch(badge: Badge, cert: CertIdentity) {
    Connectable(badge.status) && !Vouches(badge.schema, badge.identityCerts, badge.identityCert, cert.fingerprint)
  }

  ghost predicate ServerEvidence(badge: Badge, cert: CertIdentity, dialed: string) {
    && Connectable(badge.status)
    && Vouches(badge.schema, badge.serverCerts, badge.serverCert, cert.fingerprint)
    && Lower(badge.host) == Lower(CertHost(cert)) == Lower(dialed)
  }

  ghost predicate ClientEvidence(badge: Badge, cert: CertIdentity, name: AnsName) {
    && Connectable(badge.status)
    && Vouches(badge.schema, badge.identityCerts, badge.identityCert, cert.fingerprint)
    && Lower(badge.host) == Lower(CertHost(cert))
    && ParseAnsName(badge.name) == Ok(name) && PrintAnsName(ParseAnsName(badge.name).value) == badge.name
  }

  lemma BadgeDecisions(badge: Badge, cert: CertIdentity, dialed: string, name: AnsName)
    requires name.Valid()
    ensures VerifyServerBadge(badge, cert, dialed).IsSuccess() <==> ServerEvidence(badge, cert, dialed)
    ensures VerifyClientBadge(badge, cert, name).IsSuccess() <==> ClientEvidence(badge, cert, name)
  {
    SchemaRules(badge.schema, badge.serverCerts, badge.serverCert, cert.fingerprint);
    SchemaRules(badge.schema, badge.identityCerts, badge.identityCert, cert.fingerprint);
    PrintedComparison(name, badge.name);
  }

  /** Which verdict a badge gets, and that the verdict carries it. */
  lemma ServerVerdictKinds(badge: Badge, cert: CertIdentity, dialed: string)
    ensures var verdict := VerifyServerBadge(badge, cert, dialed);
            && (verdict == InvalidStatus(badge) <==> !Connectable(badge.status))
            && (verdict.FingerprintMismatch? && verdict.badge == badge <==> ServerMismatch(badge, cert))
            && (verdict.FingerprintMismatch? ==> ServerMismatch(badge, cert))
            && (verdict.HostnameMismatch? && verdict.badge == badge
                <==> Connectable(badge.status) && !ServerMismatch(badge, cert) && !ServerEvidence(badge, cert, dialed))
            && (verdict == Verified(badge, cert.fingerprint) <==> ServerEvidence(badge, cert, dialed))
            && (verdict.IsSuccess() <==> ServerEvidence(badge, cert, dialed))
  {
    SchemaRules(badge.schema, badge.serverCerts, badge.serverCert, cert.fingerprint);
  }

  lemma ClientVerdictKinds(badge: Badge, cert: CertIdentity, name: AnsName)
    requires name.Valid()
    ensures var verdict := VerifyClientBadge(badge, cert, name);
            && (verdict == InvalidStatus(badge) <==> !Connectable(badge.status))
            && (verdict.FingerprintMismatch? && verdict.badge == badge <==> ClientMismatch(badge, cert))
            && (verdict.FingerprintMismatch? ==> ClientMismatch(badge, cert))
            && (verdict == Verified(badge, cert.fingerprint) <==> ClientEvidence(badge, cert, name))
            && (verdict.IsSuccess() <==> ClientEvidence(badge, cert, name))
            && (verdict.HostnameMismatch? && verdict.badge == badge
                <==> Connectable(badge.status) && !ClientMismatch(badge, cert) && Lower(badge.host) != Lower(CertHost(cert)))
            && (verdict.AnsNameMismatch? && verdict.badge == badge
                <==> Connectable(badge.status) && !ClientMismatch(badge, cert) && Lower(badge.host) == Lower(CertHost(cert))
                     && !ClientEvidence(badge, cert, name))
  {
    SchemaRules(badge.schema, badge.identityCerts, badge.identityCert, cert.fingerprint);
    PrintedComparison(name, badge.name);
  }

  lemma ClientMismatchMeans(badge: Badge, cert: CertIdentity, name: AnsName)
    ensures VerifyClientBadge(badge, cert, name).FingerprintMismatch? <==> ClientMismatch(badge, cert)
  {
    SchemaRules(badge.schema, badge.identityCerts, badge.identityCert, cert.fingerprint);
  }
}
