/** Canonical names: versions, host names and ANS names, with their parsers and printers. */
module Names {
  import opened Wrappers
  import opened Text

  datatype ParseError = InvalidFqdn | InvalidVersion | InvalidAnsName

  // ----- versions -----

  datatype Version = Version(major: nat, minor: nat, patch: nat) {
    predicate Valid() {
      major <= U32_MAX && minor <= U32_MAX && patch <= U32_MAX
    }

    predicate AtMost(that: Version) {
      major < that.major
      || (major == that.major && (minor < that.minor || (minor == that.minor && patch <= that.patch)))
    }
  }

  function ParseVersion(s: string): (r: Result<Version, ParseError>) {
    var body := if s != "" && s[0] == 'v' then s[1..] else s;
    var parts := Split(body, '.');
    if |parts| != 3 then Err(InvalidVersion)
    else
      match (ParseU32(parts[0]), ParseU32(parts[1]), ParseU32(parts[2]))
      case (Some(major), Some(minor), Some(patch)) => Ok(Version(major, minor, patch))
      case _ => Err(InvalidVersion)
  }

  function PrintVersion(v: Version): string {
    "v" + Numeral(v.major) + "." + Numeral(v.minor) + "." + Numeral(v.patch)
  }

  lemma VersionRoundTrip(v: Version)
    requires v.Valid()
    ensures ParseVersion(PrintVersion(v)) == Ok(v)
  {
    var (a, b, c) := (Numeral(v.major), Numeral(v.minor), Numeral(v.patch));
    assert PrintVersion(v)[1..] == a + ['.'] + (b + ['.'] + c);
    SplitStep(a, b + ['.'] + c, '.');
    SplitStep(b, c, '.');
    SplitWhole(c, '.');
    NumeralParses(v.major);
    NumeralParses(v.minor);
    NumeralParses(v.patch);
  }

  ghost function Dotted(a: string, b: string, c: string): string {
    a + "." + b + "." + c
  }

  ghost predicate VersionParts(v: Version, a: string, b: string, c: string) {
    U32Text(a, v.major) && U32Text(b, v.minor) && U32Text(c, v.patch)
  }

  /** Three 32-bit numbers, separated by dots. */
  ghost predicate VersionText(s: string, v: Version) {
    exists a, b, c :: VersionParts(v, a, b, c) && s == Dotted(a, b, c)
  }

  lemma VersionPartsHaveNo(v: Version, a: string, b: string, c: string, sep: char)
    requires VersionParts(v, a, b, c) && !IsDigit(sep) && sep != '+'
    ensures sep !in a && sep !in b && sep !in c && a != ""
  {
    hide U32Text;
    U32TextHasNo(a, v.major, sep);
    U32TextHasNo(b, v.minor, sep);
    U32TextHasNo(c, v.patch, sep);
  }

  lemma VersionTextParts(s: string, v: Version)
    ensures VersionText(s, v)
            <==> var parts := Split(s, '.'); |parts| == 3 && VersionParts(v, parts[0], parts[1], parts[2])
  {
    hide VersionParts;
    var parts := Split(s, '.');
    if |parts| == 3 {
      SplitInThree(s, '.', parts[0], parts[1], parts[2]);
      assert parts == [parts[0], parts[1], parts[2]];
    }
    if a, b, c :| VersionParts(v, a, b, c) && s == Dotted(a, b, c) {
      VersionPartsHaveNo(v, a, b, c, '.');
      SplitInThree(s, '.', a, b, c);
    }
  }

  /** Exactly which texts are versions: three numbers, with at most one `v` before them. */
  lemma VersionParses(s: string, v: Version)
    ensures ParseVersion(s) == Ok(v) <==> VersionText(s, v) || (s != "" && s[0] == 'v' && VersionText(s[1..], v))
  {
    hide VersionText, U32Text, ParseU32;
    var body := if s != "" && s[0] == 'v' then s[1..] else s;
    var parts := Split(body, '.');
    VersionTextParts(body, v);
    if |parts| == 3 {
      ParsesU32(parts[0], v.major);
      ParsesU32(parts[1], v.minor);
      ParsesU32(parts[2], v.patch);
    }
    if VersionText(s, v) {
      VersionTextStart(s, v);
    }
  }

  lemma VersionTextStart(s: string, v: Version)
    requires VersionText(s, v)
    ensures s != "" && s[0] != 'v'
  {
    hide VersionParts;
    var a, b, c :| VersionParts(v, a, b, c) && s == Dotted(a, b, c);
    VersionPartsHaveNo(v, a, b, c, 'v');
    assert s[0] == a[0] && a[0] in a;
  }

  /** A version is printed after a `v`, each number in its one text without superfluous zeros. */
  lemma PrintedVersion(v: Version, a: string, b: string, c: string)
    requires forall x :: x in a || x in b || x in c ==> IsDigit(x)
    requires Plain(a) && ValueOf(a) == v.major && Plain(b) && ValueOf(b) == v.minor && Plain(c) && ValueOf(c) == v.patch
    ensures PrintVersion(v) == "v" + Dotted(a, b, c)
  {
    NumeralExact(v.major, a);
    NumeralExact(v.minor, b);
    NumeralExact(v.patch, c);
    assert PrintVersion(v) == "v" + a + "." + b + "." + c;
  }

  // ----- host names -----

  predicate LabelChar(c: char) {
    'a' <= c <= 'z' || 'A' <= c <= 'Z' || IsDigit(c) || c == '-'
  }

  predicate ValidLabel(part: string) {
    && part != ""
    && |part| <= 63
    && (forall c :: c in part ==> LabelChar(c))
    && part[0] != '-'
    && part[|part| - 1] != '-'
  }

  function TrimDots(s: string): (r: string)
    ensures |r| <= |s|
  {
    if s != "" && s[|s| - 1] == '.' then TrimDots(s[..|s| - 1]) else s
  }

  /** `Fqdn::new`: trims every trailing dot, checks each label, then folds case. */
  function NewFqdn(domain: string): (r: Result<string, ParseError>) {
    if domain == "" then Err(InvalidFqdn)
    else
      var trimmed := TrimDots(domain);
      if forall part :: part in Split(trimmed, '.') ==> ValidLabel(part) then Ok(Lower(trimmed))
      else Err(InvalidFqdn)
  }

  /** The host names `NewFqdn` can produce, described without it. */
  predicate CanonicalHost(host: string) {
    && Lower(host) == host
    && forall part :: part in Split(host, '.') ==> ValidLabel(part)
  }

  lemma {:induction false} LastLabel(s: string)
    requires s != ""
    ensures var parts := Split(s, '.');
            parts[|parts| - 1] == "" <==> s[|s| - 1] == '.'
  {
    if |s| > 1 {
      LastLabel(s[1..]);
    }
  }

  lemma CanonicalIsTrimmed(host: string)
    requires CanonicalHost(host)
    ensures host != "" && TrimDots(host) == host
  {
    var parts := Split(host, '.');
    assert parts[|parts| - 1] in parts;
    if host != "" {
      LastLabel(host);
    }
  }

  /** Folding case neither makes nor breaks a valid label. */
  lemma LowerLabel(part: string)
    ensures ValidLabel(Lower(part)) <==> ValidLabel(part)
  {
    var folded := Lower(part);
    assert forall i :: 0 <= i < |part| ==> (LabelChar(folded[i]) <==> LabelChar(part[i]));
    assert (forall c :: c in part ==> LabelChar(c)) <==> (forall i :: 0 <= i < |part| ==> LabelChar(part[i]));
    assert (forall c :: c in folded ==> LabelChar(c)) <==> (forall i :: 0 <= i < |folded| ==> LabelChar(folded[i]));
  }

  /** Exactly which texts are host names, and which name each one denotes. */
  lemma FqdnAccepts(s: string, host: string)
    ensures NewFqdn(s) == Ok(host) <==> s != "" && host == Lower(TrimDots(s)) && CanonicalHost(host)
  {
    var trimmed := TrimDots(s);
    LowerIdempotent(trimmed);
    SplitLower(trimmed, '.');
    var parts, folded := Split(trimmed, '.'), Split(Lower(trimmed), '.');
    forall i | 0 <= i < |parts| ensures ValidLabel(folded[i]) <==> ValidLabel(parts[i]) {
      LowerLabel(parts[i]);
    }
    assert (forall part :: part in parts ==> ValidLabel(part)) <==> (forall i :: 0 <= i < |parts| ==> ValidLabel(parts[i]));
    assert (forall part :: part in folded ==> ValidLabel(part)) <==> (forall i :: 0 <= i < |folded| ==> ValidLabel(folded[i]));
  }

  /** `NewFqdn` accepts exactly canonical results and leaves a canonical name alone. */
  lemma FqdnImage(host: string)
    ensures CanonicalHost(host) <==> NewFqdn(host) == Ok(host)
    ensures CanonicalHost(host) <==> exists s :: NewFqdn(s) == Ok(host)
  {
    if CanonicalHost(host) {
      CanonicalIsTrimmed(host);
      assert NewFqdn(host) == Ok(host);
    }
    forall s | NewFqdn(s) == Ok(host) ensures CanonicalHost(host) {
      FqdnCanonical(s);
    }
  }

  lemma FqdnCanonical(s: string)
    requires NewFqdn(s).Ok?
    ensures CanonicalHost(NewFqdn(s).value)
  {
    FqdnAccepts(s, NewFqdn(s).value);
  }

  /** A label of a canonical host: up to 63 lower-case letters, digits and inner hyphens. */
  ghost predicate HostLabel(part: string) {
    && 1 <= |part| <= 63 && part[0] != '-' && part[|part| - 1] != '-'
    && forall c :: c in part ==> 'a' <= c <= 'z' || '0' <= c <= '9' || c == '-'
  }

  lemma LabelIsLower(part: string)
    ensures HostLabel(part) <==> ValidLabel(part) && Lower(part) == part
  {
    forall i | 0 <= i < |part| && ValidLabel(part) && Lower(part) == part
      ensures 'a' <= part[i] <= 'z' || '0' <= part[i] <= '9' || part[i] == '-'
    {
      assert part[i] in part && Lower(part)[i] == LowerChar(part[i]);
      LowerTable(part[i]);
    }
    if HostLabel(part) {
      assert forall i :: 0 <= i < |part| ==> part[i] in part && LowerChar(part[i]) == part[i];
    }
  }

  /** The canonical hosts, label by label. */
  lemma CanonicalForm(host: string)
    ensures CanonicalHost(host) <==> forall part :: part in Split(host, '.') ==> HostLabel(part)
  {
    hide HostLabel, ValidLabel;
    SplitLower(host, '.');
    var parts, folded := Split(host, '.'), Split(Lower(host), '.');
    forall part | part in parts ensures HostLabel(part) <==> ValidLabel(part) && Lower(part) == part {
      LabelIsLower(part);
    }
    if Lower(host) == host {
      forall part | part in parts ensures Lower(part) == part {
        var i :| 0 <= i < |parts| && parts[i] == part;
        assert folded[i] == Lower(parts[i]);
      }
    }
    if forall part :: part in parts ==> Lower(part) == part {
      forall i | 0 <= i < |host| ensures Lower(host)[i] == host[i] {
        LowerTable(host[i]);
        if host[i] != '.' {
          SplitCovers(host, '.', host[i]);
          var part :| part in parts && host[i] in part;
          var j :| 0 <= j < |part| && part[j] == host[i];
          assert Lower(part)[j] == LowerChar(part[j]);
        }
      }
    }
  }

  lemma {:induction false} TrimmedBody(body: string, dots: string)
    requires (body == "" || body[|body| - 1] != '.') && forall c :: c in dots ==> c == '.'
    ensures TrimDots(body + dots) == body
    decreases |dots|
  {
    if dots == "" {
      assert body + dots == body;
    } else {
      var front := dots[..|dots| - 1];
      assert forall c :: c in front ==> c in dots;
      assert dots[|dots| - 1] in dots && (body + dots)[..|body + dots| - 1] == body + front;
      TrimmedBody(body, front);
    }
  }

  lemma {:induction false} TrimmedDots(s: string) returns (dots: string)
    ensures s == TrimDots(s) + dots && forall c :: c in dots ==> c == '.'
  {
    if s != "" && s[|s| - 1] == '.' {
      dots := TrimmedDots(s[..|s| - 1]);
      dots := dots + ".";
      assert s == s[..|s| - 1] + ".";
    } else {
      dots := "";
    }
  }

  /** A text is a host name followed by any number of dots, in any mix of letter cases, and denotes that host. */
  lemma FqdnDenotes(s: string, host: string)
    ensures NewFqdn(s) == Ok(host)
            <==> CanonicalHost(host) && exists body, dots :: s == body + dots && Lower(body) == host && forall c :: c in dots ==> c == '.'
  {
    FqdnAccepts(s, host);
    if NewFqdn(s) == Ok(host) {
      var dots := TrimmedDots(s);
    }
    if body, dots :| s == body + dots && Lower(body) == host && (forall c :: c in dots ==> c == '.') && CanonicalHost(host) {
      CanonicalIsTrimmed(host);
      var last := |body| - 1;
      LowerTable(body[last]);
      assert host[last] == LowerChar(body[last]);
      TrimmedBody(body, dots);
    }
  }

  // ----- ANS names -----

  const ANS_PREFIX := "ans://"

  datatype AnsName = AnsName(version: Version, fqdn: string) {
    predicate Valid() {
      version.Valid() && CanonicalHost(fqdn)
    }
  }

  function ParseAnsName(uri: string): (r: Result<AnsName, ParseError>) {
    if !(ANS_PREFIX <= uri) then Err(InvalidAnsName)
    else
      var rest := uri[|ANS_PREFIX|..];
      if rest == "" || rest[0] != 'v' then Err(InvalidAnsName)
      else
        var parts := SplitN(rest, '.', 4);
        if |parts| < 4 then Err(InvalidAnsName)
        else
          var version :- ParseVersion(parts[0] + "." + parts[1] + "." + parts[2]);
          var fqdn :- NewFqdn(parts[3]);
          Ok(AnsName(version, fqdn))
  }

  function PrintAnsName(name: AnsName): string {
    ANS_PREFIX + PrintVersion(name.version) + "." + name.fqdn
  }

  /** The host is never split, even when its labels are digits. */
  lemma PrintedPieces(v: Version, host: string)
    ensures SplitN(PrintVersion(v) + "." + host, '.', 4)
            == ["v" + Numeral(v.major), Numeral(v.minor), Numeral(v.patch), host]
  {
    var (a, b, c) := ("v" + Numeral(v.major), Numeral(v.minor), Numeral(v.patch));
    var afterMinor := c + ['.'] + host;
    var afterMajor := b + ['.'] + afterMinor;
    assert PrintVersion(v) + "." + host == a + ['.'] + afterMajor;
    SplitNStep(a, afterMajor, '.', 4);
    SplitNStep(b, afterMinor, '.', 3);
    SplitNStep(c, host, '.', 2);
    assert SplitN(host, '.', 1) == [host];
  }

  /** Printing then parsing gives the name back, whatever the host's labels look like. */
  lemma AnsNameRoundTrip(name: AnsName)
    requires name.Valid()
    ensures ParseAnsName(PrintAnsName(name)) == Ok(name)
  {
    var v := name.version;
    var rest := PrintVersion(v) + "." + name.fqdn;
    assert PrintAnsName(name) == ANS_PREFIX + rest;
    assert PrintAnsName(name)[|ANS_PREFIX|..] == rest;
    PrintedPieces(v, name.fqdn);
    var parts := SplitN(rest, '.', 4);
    assert parts[0] + "." + parts[1] + "." + parts[2] == PrintVersion(v);
    VersionRoundTrip(v);
    FqdnImage(name.fqdn);
  }

  /** `ans://v` followed by the three numbers and a host, separated by dots. */
  ghost predicate AnsNameText(uri: string, name: AnsName) {
    exists version, host :: VersionText(version, name.version) && NewFqdn(host) == Ok(name.fqdn)
                            && uri == "ans://v" + version + "." + host
  }

  lemma Reassociated(a: string, b: string, c: string, host: string)
    ensures a + ['.'] + (b + ['.'] + (c + ['.'] + host)) == Dotted(a, b, c) + "." + host
  {}

  lemma SplitInFour(s: string)
    requires |SplitN(s, '.', 4)| == 4
    ensures var parts := SplitN(s, '.', 4); s == Dotted(parts[0], parts[1], parts[2]) + "." + parts[3]
  {
    hide SplitN, Dotted;
    var parts := SplitN(s, '.', 4);
    var r1 := SplitNFirst(s, '.', 4);
    var r2 := SplitNFirst(r1, '.', 3);
    var r3 := SplitNFirst(r2, '.', 2);
    SplitNOnce(r3, '.');
    Reassociated(parts[0], parts[1], parts[2], r3);
  }

  lemma SplitNOnce(s: string, sep: char)
    ensures SplitN(s, sep, 1) == [s]
  {}

  lemma JoinedFour(a: string, b: string, c: string, host: string)
    requires '.' !in a && '.' !in b && '.' !in c
    ensures SplitN(Dotted(a, b, c) + "." + host, '.', 4) == [a, b, c, host]
  {
    var afterMinor := c + ['.'] + host;
    var afterMajor := b + ['.'] + afterMinor;
    assert Dotted(a, b, c) + "." + host == a + ['.'] + afterMajor;
    SplitNStep(a, afterMajor, '.', 4);
    SplitNStep(b, afterMinor, '.', 3);
    SplitNStep(c, host, '.', 2);
    assert SplitN(host, '.', 1) == [host];
  }

  /** Exactly which texts are ANS names, and which name each denotes. */
  lemma AnsNameParses(uri: string, name: AnsName)
    ensures ParseAnsName(uri) == Ok(name) <==> AnsNameText(uri, name)
  {
    if ParseAnsName(uri) == Ok(name) {
      ParsedAnsNameText(uri, name);
    }
    if AnsNameText(uri, name) {
      AnsNameTextParses(uri, name);
    }
  }

  lemma ParsedAnsNameText(uri: string, name: AnsName)
    requires ParseAnsName(uri) == Ok(name)
    ensures AnsNameText(uri, name)
  {
    hide VersionText, NewFqdn, ParseVersion, SplitN;
    var rest := uri[6..];
    var parts := SplitN(rest, '.', 4);
    assert |parts| == 4;
    SplitInFour(rest);
    var text := Dotted(parts[0], parts[1], parts[2]);
    assert rest == text + "." + parts[3];
    assert text != "" && text[0] == rest[0] == 'v';
    VersionParses(text, name.version);
    if VersionText(text, name.version) {
      VersionTextStart(text, name.version);
    }
    assert uri == "ans://v" + text[1..] + "." + parts[3];
  }

  lemma AnsNameTextParses(uri: string, name: AnsName)
    requires AnsNameText(uri, name)
    ensures ParseAnsName(uri) == Ok(name)
  {
    hide VersionParts, NewFqdn, ParseVersion, SplitN;
    var version, host :| VersionText(version, name.version) && NewFqdn(host) == Ok(name.fqdn)
                         && uri == "ans://v" + version + "." + host;
    var a, b, c :| VersionParts(name.version, a, b, c) && version == Dotted(a, b, c);
    VersionPartsHaveNo(name.version, a, b, c, '.');
    var rest := uri[|ANS_PREFIX|..];
    var major := "v" + a;
    assert "v" + Dotted(a, b, c) == Dotted(major, b, c);
    assert rest == Dotted(major, b, c) + "." + host;
    JoinedFour(major, b, c, host);
    VersionParses("v" + version, name.version);
    assert ("v" + version)[1..] == version;
  }

  lemma ParsedVersionValid(s: string)
    requires ParseVersion(s).Ok?
    ensures ParseVersion(s).value.Valid()
  {}

  lemma ParsedAnsNameValid(uri: string)
    requires ParseAnsName(uri).Ok?
    ensures ParseAnsName(uri).value.Valid()
  {
    var parts := SplitN(uri[|ANS_PREFIX|..], '.', 4);
    ParsedVersionValid(parts[0] + "." + parts[1] + "." + parts[2]);
    FqdnCanonical(parts[3]);
  }

  /**
   * What the client's string comparison decides: a printed name equals a text exactly when the text
   * parses to that name and is itself in printed form. Between printed names it is equality.
   */
  lemma PrintedComparison(name: AnsName, text: string)
    requires name.Valid()
    ensures PrintAnsName(name) == text
            <==> ParseAnsName(text) == Ok(name) && PrintAnsName(ParseAnsName(text).value) == text
    ensures forall other: AnsName :: other.Valid() ==> (PrintAnsName(name) == PrintAnsName(other) <==> name == other)
  {
    AnsNameRoundTrip(name);
    forall other: AnsName | other.Valid() ensures PrintAnsName(name) == PrintAnsName(other) ==> name == other {
      AnsNameRoundTrip(other);
    }
  }
}
