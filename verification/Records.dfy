/** Badge DNS records, the two version orders in which they are tried, and lookup answers. */
module Records {
  import opened Wrappers
  import opened Names
  import opened Badges
  import opened BadgeCache
  import opened Outcomes
  import Dane

  datatype Record = Record(version: Option<Version>, url: string)

  datatype DnsAnswer = Found(records: seq<Record>) | Absent | Failed(error: Dane.DnsError)

  /** One answer of the transparency log, and what the cache drops if the badge is then stored. */
  datatype FetchAnswer = FetchAnswer(result: Result<Badge, TlogError>, evicted: set<CacheKey>)

  // ----- version orders -----

  /** Derived order on optional versions with the arguments swapped: newest first, unversioned last. */
  predicate NewestFirst(a: Option<Version>, b: Option<Version>) {
    b.None? || (a.Some? && b.value.AtMost(a.value))
  }

  /** Order of the preferred-badge lookup: unversioned first, then newest first. */
  predicate WildcardFirst(a: Option<Version>, b: Option<Version>) {
    a.None? || (b.Some? && b.value.AtMost(a.value))
  }

  type VersionOrder = (Option<Version>, Option<Version>) -> bool

  function Place(r: Record, sorted: seq<Record>, before: VersionOrder): seq<Record> {
    if sorted == [] || before(r.version, sorted[0].version) then [r] + sorted
    else [sorted[0]] + Place(r, sorted[1..], before)
  }

  /** A stable sort. */
  function SortBy(records: seq<Record>, before: VersionOrder): seq<Record> {
    if records == [] then [] else Place(records[0], SortBy(records[1..], before), before)
  }

  function SortNewestFirst(records: seq<Record>): seq<Record> {
    SortBy(records, NewestFirst)
  }

  ghost predicate SortedBy(records: seq<Record>, before: VersionOrder) {
    forall i, j :: 0 <= i < j < |records| ==> before(records[i].version, records[j].version)
  }

  ghost predicate TotalOrder(before: VersionOrder) {
    && (forall a, b :: before(a, b) || before(b, a))
    && (forall a, b, c :: before(a, b) && before(b, c) ==> before(a, c))
    && (forall a, b :: before(a, b) && before(b, a) ==> a == b)
  }

  function WithVersion(records: seq<Record>, v: Option<Version>): seq<Record> {
    if records == [] then []
    else (if records[0].version == v then [records[0]] else []) + WithVersion(records[1..], v)
  }

  lemma {:induction false} PlaceKeepsContents(r: Record, sorted: seq<Record>, before: VersionOrder)
    ensures multiset(Place(r, sorted, before)) == multiset([r] + sorted)
  {
    if sorted != [] && !before(r.version, sorted[0].version) {
      PlaceKeepsContents(r, sorted[1..], before);
      assert sorted == [sorted[0]] + sorted[1..];
    }
  }

  lemma {:induction false} PlaceSorts(r: Record, sorted: seq<Record>, before: VersionOrder)
    requires TotalOrder(before) && SortedBy(sorted, before)
    ensures SortedBy(Place(r, sorted, before), before)
  {
    if sorted != [] && !before(r.version, sorted[0].version) {
      var rest := Place(r, sorted[1..], before);
      PlaceSorts(r, sorted[1..], before);
      PlaceKeepsContents(r, sorted[1..], before);
      forall x | x in rest ensures before(sorted[0].version, x.version) {
        assert x in multiset(rest) && x in [r] + sorted[1..];
      }
    } else {
      forall i | 0 <= i < |sorted| ensures before(r.version, sorted[i].version) {
        assert before(sorted[0].version, sorted[i].version);
      }
    }
  }

  /** A record is placed before later records of its own version and past none of them. */
  lemma {:induction false} PlaceKeepsTies(r: Record, sorted: seq<Record>, before: VersionOrder, v: Option<Version>)
    requires TotalOrder(before)
    ensures WithVersion(Place(r, sorted, before), v) == WithVersion([r] + sorted, v)
  {
    assert ([r] + sorted)[1..] == sorted;
    if sorted != [] && !before(r.version, sorted[0].version) {
      var rest := Place(r, sorted[1..], before);
      PlaceKeepsTies(r, sorted[1..], before, v);
      assert ([sorted[0]] + rest)[1..] == rest;
      assert ([r] + sorted[1..])[1..] == sorted[1..];
      assert r.version != sorted[0].version;
    }
  }

  /** The three facts that determine a stable sort: order, contents, and ties left in place. */
  lemma {:induction false} SortIsStable(records: seq<Record>, before: VersionOrder, v: Option<Version>)
    requires TotalOrder(before)
    ensures SortedBy(SortBy(records, before), before)
    ensures multiset(SortBy(records, before)) == multiset(records)
    ensures WithVersion(SortBy(records, before), v) == WithVersion(records, v)
  {
    if records != [] {
      var rest := SortBy(records[1..], before);
      SortIsStable(records[1..], before, v);
      PlaceSorts(records[0], rest, before);
      PlaceKeepsContents(records[0], rest, before);
      PlaceKeepsTies(records[0], rest, before, v);
      assert records == [records[0]] + records[1..];
      assert ([records[0]] + rest)[1..] == rest;
    }
  }

  lemma VersionOrdersAreTotal()
    ensures TotalOrder(NewestFirst) && TotalOrder(WildcardFirst)
  {}

  /** Version order, component by component. */
  ghost predicate NotNewer(a: Version, b: Version) {
    && a.major <= b.major
    && (a.major == b.major ==> a.minor <= b.minor)
    && (a.major == b.major && a.minor == b.minor ==> a.patch <= b.patch)
  }

  /** The order in which records are tried: newest version first, unversioned last, all of them and no others. */
  lemma NewestRecordsFirst(records: seq<Record>, i: nat, j: nat)
    requires i < j < |SortNewestFirst(records)|
    ensures var (a, b) := (SortNewestFirst(records)[i].version, SortNewestFirst(records)[j].version);
            b.None? || (a.Some? && NotNewer(b.value, a.value))
    ensures forall r :: r in SortNewestFirst(records) <==> r in records
    ensures |SortNewestFirst(records)| == |records|
  {
    VersionOrdersAreTotal();
    SortIsStable(records, NewestFirst, None);
    SortedHasSameRecords(records);
    var sorted := SortNewestFirst(records);
    assert NewestFirst(sorted[i].version, sorted[j].version);
  }

  lemma SortedHasSameRecords(records: seq<Record>)
    ensures forall r :: r in SortNewestFirst(records) <==> r in records
    ensures |SortNewestFirst(records)| == |records|
  {
    VersionOrdersAreTotal();
    SortIsStable(records, NewestFirst, None);
    var sorted := SortNewestFirst(records);
    assert |multiset(sorted)| == |sorted| && |multiset(records)| == |records|;
    forall r ensures r in sorted <==> r in records {
      assert r in multiset(sorted) <==> r in multiset(records);
    }
  }

  // ----- resolver conveniences -----

  function FirstForVersion(records: seq<Record>, version: Version): Option<Record> {
    if records == [] then None
    else if records[0].version.None? || records[0].version.value == version then Some(records[0])
    else FirstForVersion(records[1..], version)
  }

  /** A missing record set is an error here, as in `get_badge_records`. */
  function FindBadgeForVersion(answer: DnsAnswer, version: Version): Result<Option<Record>, Dane.DnsError> {
    match answer
    case Found(records) => Ok(FirstForVersion(records, version))
    case Absent => Err(Dane.NotFound)
    case Failed(e) => Err(e)
  }

  function FindPreferredBadge(answer: DnsAnswer): Result<Option<Record>, Dane.DnsError> {
    match answer
    case Found(records) =>
      if records == [] then Ok(None) else Ok(Some(SortBy(records, WildcardFirst)[0]))
    case Absent => Err(Dane.NotFound)
    case Failed(e) => Err(e)
  }

  predicate Suits(r: Record, version: Version) {
    r.version == None || r.version == Some(version)
  }

  predicate FirstSuiting(records: seq<Record>, version: Version, i: nat) {
    i < |records| && Suits(records[i], version) && forall j :: 0 <= j < i ==> !Suits(records[j], version)
  }

  lemma FirstIsUnique(records: seq<Record>, version: Version, i: nat, k: nat)
    requires FirstSuiting(records, version, i) && FirstSuiting(records, version, k)
    ensures i == k
  {}

  /** The record for a version is the first that names it or names none. */
  lemma VersionRecord(records: seq<Record>, version: Version, r: Record)
    ensures FindBadgeForVersion(Found(records), version) == Ok(Some(r))
            <==> exists i: nat :: FirstSuiting(records, version, i) && records[i] == r
  {
    FirstForVersionMeans(records, version);
    if i: nat :| FirstSuiting(records, version, i) && records[i] == r && FirstForVersion(records, version).Some? {
      var k: nat :| FirstSuiting(records, version, k) && records[k] == FirstForVersion(records, version).value;
      FirstIsUnique(records, version, i, k);
    }
  }

  lemma {:induction false} FirstForVersionMeans(records: seq<Record>, version: Version)
    ensures FirstForVersion(records, version) == None ==> forall j :: 0 <= j < |records| ==> !Suits(records[j], version)
    ensures FirstForVersion(records, version).Some? ==>
              exists i: nat :: FirstSuiting(records, version, i) && records[i] == FirstForVersion(records, version).value
  {
    if records != [] {
      var rest := records[1..];
      FirstForVersionMeans(rest, version);
      if Suits(records[0], version) {
        assert FirstSuiting(records, version, 0);
      } else if FirstForVersion(rest, version).Some? {
        var i: nat :| FirstSuiting(rest, version, i) && rest[i] == FirstForVersion(rest, version).value;
        assert forall j :: 0 < j <= i + 1 ==> records[j] == rest[j - 1];
        assert FirstSuiting(records, version, i + 1);
      } else {
        assert forall j :: 0 < j < |records| ==> records[j] == rest[j - 1];
      }
    }
  }

  /** The record is unversioned or of the newest version, there is an unversioned one only if it is, and it is the first such. */
  ghost predicate PreferredAt(records: seq<Record>, i: nat) {
    && i < |records|
    && (forall other :: other in records ==>
          records[i].version.None? || (other.version.Some? && NotNewer(other.version.value, records[i].version.value)))
    && (forall j :: 0 <= j < i ==> records[j].version != records[i].version)
  }

  lemma PreferredIsUnique(records: seq<Record>, i: nat, k: nat)
    requires PreferredAt(records, i) && PreferredAt(records, k)
    ensures i == k
  {
    assert records[i] in records && records[k] in records;
  }

  lemma {:induction false} FirstWithVersion(records: seq<Record>, v: Option<Version>) returns (i: nat)
    requires WithVersion(records, v) != []
    ensures i < |records| && records[i] == WithVersion(records, v)[0] && records[i].version == v
    ensures forall j :: 0 <= j < i ==> records[j].version != v
  {
    if records[0].version == v {
      i := 0;
    } else {
      i := FirstWithVersion(records[1..], v);
      assert forall j :: 0 < j < i + 1 ==> records[j] == records[1..][j - 1];
      i := i + 1;
    }
  }

  /** The preferred record is exactly the first unversioned one if there is any, otherwise the first of the newest version. */
  lemma PreferredRecord(records: seq<Record>, r: Record)
    ensures FindPreferredBadge(Found(records)) == Ok(Some(r))
            <==> exists i: nat :: PreferredAt(records, i) && records[i] == r
  {
    if records != [] {
      var i := PreferredIndex(records);
      if k: nat :| PreferredAt(records, k) && records[k] == r {
        PreferredIsUnique(records, i, k);
      }
    }
  }

  lemma PreferredIndex(records: seq<Record>) returns (i: nat)
    requires records != []
    ensures PreferredAt(records, i) && FindPreferredBadge(Found(records)) == Ok(Some(records[i]))
  {
    VersionOrdersAreTotal();
    SortIsStable(records, WildcardFirst, None);
    var sorted := SortBy(records, WildcardFirst);
    assert |multiset(sorted)| == |sorted| && |multiset(records)| == |records|;
    var r := sorted[0];
    SortIsStable(records, WildcardFirst, r.version);
    i := FirstWithVersion(records, r.version);
    forall other | other in records ensures WildcardFirst(r.version, other.version) {
      assert other in multiset(sorted);
    }
  }
}
