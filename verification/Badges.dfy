/** Transparency-log badges and the certificate identities they are compared with. */
module Badges {
  import opened Wrappers
  import opened Text
  import opened Fingerprints
  import opened Names

  datatype BadgeStatus = Active | Warning | Deprecated | ExpiredStatus | Revoked | Unknown {
    predicate ValidForConnection() {
      Active? || Warning? || Deprecated?
    }

    predicate ShouldReject() {
      ExpiredStatus? || Revoked?
    }
  }

  ghost predicate Connectable(status: BadgeStatus) {
    status in {Active, Warning, Deprecated}
  }

  /** The fields of a badge that verification reads; certificates are given by their fingerprint text. */
  datatype Badge = Badge(
    status: BadgeStatus,
    schema: string,
    serverCerts: seq<string>,
    serverCert: Option<string>,
    identityCerts: seq<string>,
    identityCert: Option<string>,
    name: string,
    host: string,
    version: string)

  function CertFingerprints(schema: string, certificates: seq<string>, legacy: Option<string>): seq<string> {
    if schema == "V1" && certificates == [] then
      if legacy.Some? then [legacy.value] else []
    else if schema == "V1" || schema == "V2" then certificates
    else []
  }

  function ServerFingerprints(badge: Badge): seq<string> {
    CertFingerprints(badge.schema, badge.serverCerts, badge.serverCert)
  }

  function IdentityFingerprints(badge: Badge): seq<string> {
    CertFingerprints(badge.schema, badge.identityCerts, badge.identityCert)
  }

  predicate Lists(texts: seq<string>, fp: Fingerprint) {
    exists text :: text in texts && Matches(fp, text)
  }

  /** The legacy field counts only for a V1 badge whose array is empty; unknown schemas list nothing. */
  ghost predicate Vouches(schema: string, certificates: seq<string>, legacy: Option<string>, fp: Fingerprint) {
    || (schema in {"V1", "V2"} && Lists(certificates, fp))
    || (schema == "V1" && certificates == [] && legacy.Some? && Matches(fp, legacy.value))
  }

  lemma SchemaRules(schema: string, certificates: seq<string>, legacy: Option<string>, fp: Fingerprint)
    ensures Lists(CertFingerprints(schema, certificates, legacy), fp) <==> Vouches(schema, certificates, legacy, fp)
  {
    if schema == "V1" && certificates == [] && legacy.Some? && Matches(fp, legacy.value) {
      assert legacy.value in CertFingerprints(schema, certificates, legacy);
    }
  }

  // ----- certificate identities -----

  datatype CertIdentity = CertIdentity(
    commonName: Option<string>,
    dnsSans: seq<string>,
    uriSans: seq<string>,
    fingerprint: Fingerprint,
    rawDer: Option<Bytes>,
    spkiDer: Option<Bytes>)
  {
    function Fqdn(): Option<string> {
      if dnsSans != [] then Some(dnsSans[0]) else commonName
    }

    function Host(): string {
      if Fqdn().Some? then Fqdn().value else ""
    }

    function AnsName(): Option<Names.AnsName> {
      FirstAnsName(uriSans)
    }
  }

  /** The host a certificate is for: its first DNS name, or else its common name. */
  ghost function CertHost(cert: CertIdentity): string {
    if cert.dnsSans != [] then cert.dnsSans[0] else if cert.commonName.Some? then cert.commonName.value else ""
  }

  function FirstAnsName(uris: seq<string>): (r: Option<AnsName>)
    ensures r.Some? ==> r.value.Valid() && exists uri :: uri in uris && ParseAnsName(uri) == Ok(r.value)
  {
    if uris == [] then None
    else
      match ParseAnsName(uris[0])
      case Ok(name) => ParsedAnsNameValid(uris[0]); Some(name)
      case Err(_) => FirstAnsName(uris[1..])
  }
}
