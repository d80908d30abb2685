/** Trusted key stores and the digest under which an artifact verified by one of them is cached. */
module TrustScope {
  import opened Wrappers
  import opened Fingerprints

  /** Four-byte key id. */
  type KeyId = b: Bytes | |b| == 4 witness [0, 0, 0, 0]

  /** Uncompressed P-256 point. */
  type Point = b: Bytes | |b| == 65 witness seq(65, _ => 0)

  /** Names are UTF-8 octets, shorter than 2^64 as every Rust string is. */
  datatype TrustedKey = TrustedKey(kid: KeyId, name: Bytes, point: Point) {
    predicate Valid() {
      |name| < NAME_LIMIT
    }
  }

  const NAME_LIMIT: nat := 0x1_0000_0000_0000_0000

  type KeyMap = map<KeyId, TrustedKey>

  predicate ValidKeys(keys: KeyMap) {
    forall kid :: kid in keys ==> keys[kid].kid == kid && keys[kid].Valid()
  }

  /** A key store carries the digest that names its whole trust configuration. */
  datatype KeyStore = KeyStore(keys: KeyMap, trustScope: Fingerprint)

  // ----- byte encodings -----

  function BigEndian(n: nat, width: nat): (b: Bytes)
    ensures |b| == width
  {
    if width == 0 then [] else BigEndian(n / 256, width - 1) + [n % 256]
  }

  function FromBigEndian(b: Bytes): nat {
    if b == [] then 0 else FromBigEndian(b[..|b| - 1]) * 256 + b[|b| - 1]
  }

  function Power256(width: nat): nat {
    if width == 0 then 1 else 256 * Power256(width - 1)
  }

  lemma {:induction false} BigEndianRoundTrip(n: nat, width: nat)
    requires n < Power256(width)
    ensures FromBigEndian(BigEndian(n, width)) == n
  {
    if width > 0 {
      BigEndianRoundTrip(n / 256, width - 1);
      var b := BigEndian(n, width);
      assert b[..|b| - 1] == BigEndian(n / 256, width - 1);
    }
  }

  function EncodeKey(key: TrustedKey): Bytes {
    key.kid + BigEndian(|key.name|, 8) + key.name + key.point
  }

  // ----- keys in key-id order -----

  /** Lexicographic order on byte strings. */
  predicate Below(a: Bytes, b: Bytes) {
    if a == [] then b != []
    else b != [] && (a[0] < b[0] || (a[0] == b[0] && Below(a[1..], b[1..])))
  }

  ghost predicate Ordered(keys: seq<TrustedKey>) {
    forall i, j :: 0 <= i < j < |keys| ==> Below(keys[i].kid, keys[j].kid)
  }

  /** `ordered` is the store's keys sorted by key id. */
  ghost predicate Lists(ordered: seq<TrustedKey>, keys: KeyMap) {
    && Ordered(ordered)
    && (forall key :: key in ordered ==> key.kid in keys && keys[key.kid] == key)
    && (forall kid :: kid in keys ==> keys[kid] in ordered)
  }

  function EncodeAll(ordered: seq<TrustedKey>): Bytes {
    if ordered == [] then [] else EncodeKey(ordered[0]) + EncodeAll(ordered[1..])
  }

  /** The domain separator that starts the digest of a key store. */
  const SCOPE_LABEL: Bytes :=
    [65, 78, 83, 45, 54, 32, 116, 114, 117, 115, 116, 101, 100, 32, 107, 101, 121, 32, 115, 116, 111, 114, 101, 0]

  /** What is hashed to name a key store. */
  function ScopeMessage(ordered: seq<TrustedKey>): Bytes {
    SCOPE_LABEL + EncodeAll(ordered)
  }

  function ArtifactKey(sha256: Bytes -> Fingerprint, store: KeyStore, artifact: Bytes): Fingerprint {
    sha256(store.trustScope + artifact)
  }

  /** The store was built by hashing its own keys in key-id order. */
  ghost predicate Scoped(sha256: Bytes -> Fingerprint, store: KeyStore) {
    && ValidKeys(store.keys)
    && exists ordered :: Lists(ordered, store.keys) && store.trustScope == sha256(ScopeMessage(ordered))
  }

  ghost predicate Collides(sha256: Bytes -> Fingerprint, x: Bytes, y: Bytes) {
    x != y && sha256(x) == sha256(y)
  }

  // ----- the encoding determines the store -----

  lemma KeyPrefixDetermined(a: TrustedKey, b: TrustedKey, restA: Bytes, restB: Bytes)
    requires a.Valid() && b.Valid() && EncodeKey(a) + restA == EncodeKey(b) + restB
    ensures a == b && restA == restB
  {
    var (x, y) := (EncodeKey(a) + restA, EncodeKey(b) + restB);
    var (la, lb) := (BigEndian(|a.name|, 8), BigEndian(|b.name|, 8));
    assert a.kid == x[..4] == y[..4] == b.kid;
    assert la == x[4..12] == y[4..12] == lb;
    assert Power256(8) == NAME_LIMIT by {
      assert Power256(2) == 65536;
      assert Power256(4) == 65536 * 65536;
      assert Power256(6) == 65536 * Power256(4);
    }
    BigEndianRoundTrip(|a.name|, 8);
    BigEndianRoundTrip(|b.name|, 8);
    var n := |a.name|;
    assert a.name == x[12..12 + n] == y[12..12 + n] == b.name;
    assert a.point == x[12 + n..77 + n] == y[12 + n..77 + n] == b.point;
    assert restA == x[77 + n..] == y[77 + n..] == restB;
  }

  /** The concatenated encodings are uniquely readable. */
  lemma {:induction false} EncodingDetermined(a: seq<TrustedKey>, b: seq<TrustedKey>)
    requires forall key :: key in a + b ==> key.Valid()
    requires EncodeAll(a) == EncodeAll(b)
    ensures a == b
  {
    if a != [] && b != [] {
      assert a[0] in a + b && b[0] in a + b;
      KeyPrefixDetermined(a[0], b[0], EncodeAll(a[1..]), EncodeAll(b[1..]));
      assert forall key :: key in a[1..] + b[1..] ==> key in a + b;
      EncodingDetermined(a[1..], b[1..]);
      assert a == [a[0]] + a[1..] && b == [b[0]] + b[1..];
    }
  }

  /** One key list names only one key map. */
  lemma ListedKeys(ordered: seq<TrustedKey>, a: KeyMap, b: KeyMap)
    requires Lists(ordered, a) && Lists(ordered, b) && ValidKeys(a) && ValidKeys(b)
    ensures a == b
  {
    assert forall kid :: kid in a ==> a[kid] in ordered && kid in b && b[kid] == a[kid];
    assert forall kid :: kid in b ==> b[kid] in ordered && kid in a;
  }

  /** The hash does not collide on the messages hashed for these two presentations. */
  ghost predicate NoCollision(
    sha256: Bytes -> Fingerprint, a: KeyStore, artifactA: Bytes, b: KeyStore, artifactB: Bytes)
  {
    && !Collides(sha256, a.trustScope + artifactA, b.trustScope + artifactB)
    && forall x, y :: Lists(x, a.keys) && Lists(y, b.keys) ==> !Collides(sha256, ScopeMessage(x), ScopeMessage(y))
  }

  /** Trust scopes do not mix: equal cache keys mean the same key store and the same artifact bytes. */
  lemma ArtifactKeyInjective(
    sha256: Bytes -> Fingerprint, a: KeyStore, artifactA: Bytes, b: KeyStore, artifactB: Bytes)
    requires Scoped(sha256, a) && Scoped(sha256, b) && NoCollision(sha256, a, artifactA, b, artifactB)
    requires ArtifactKey(sha256, a, artifactA) == ArtifactKey(sha256, b, artifactB)
    ensures a == b && artifactA == artifactB
  {
    var (x, y) := (a.trustScope + artifactA, b.trustScope + artifactB);
    assert a.trustScope == x[..32] == y[..32] == b.trustScope;
    assert artifactA == x[32..] == y[32..] == artifactB;
    var listA :| Lists(listA, a.keys) && a.trustScope == sha256(ScopeMessage(listA));
    var listB :| Lists(listB, b.keys) && b.trustScope == sha256(ScopeMessage(listB));
    var n := |SCOPE_LABEL|;
    assert EncodeAll(listA) == ScopeMessage(listA)[n..] == ScopeMessage(listB)[n..] == EncodeAll(listB);
    forall key: TrustedKey | key in listA + listB ensures key.Valid() {
      assert key in listA || key in listB;
    }
    EncodingDetermined(listA, listB);
    ListedKeys(listA, a.keys, b.keys);
  }

  /** Sorting by key id leaves no freedom: a store has at most one key list. */
  lemma {:induction false} KeyListUnique(a: seq<TrustedKey>, b: seq<TrustedKey>)
    requires Ordered(a) && Ordered(b) && forall key :: key in a <==> key in b
    ensures a == b
  {
    if a == [] {
      HasMember(b);
    } else {
      assert a[0] in a && b != [] && b[0] in b;
      FirstIsLeast(a, b);
      FirstIsLeast(b, a);
      BelowIsStrict(a[0].kid, b[0].kid);
      assert a[0] == b[0];
      forall key ensures key in a[1..] <==> key in b[1..] {
        TailMembers(a, key);
        TailMembers(b, key);
      }
      KeyListUnique(a[1..], b[1..]);
      assert a == [a[0]] + a[1..] && b == [b[0]] + b[1..];
    }
  }

  lemma HasMember(keys: seq<TrustedKey>)
    ensures keys == [] || exists key :: key in keys
  {
    if keys != [] {
      assert keys[0] in keys;
    }
  }

  lemma FirstIsLeast(a: seq<TrustedKey>, b: seq<TrustedKey>)
    requires Ordered(a) && a != [] && b != [] && forall key :: key in a <==> key in b
    ensures a[0] == b[0] || Below(a[0].kid, b[0].kid)
  {
    assert b[0] in b;
    var i :| 0 <= i < |a| && a[i] == b[0];
  }

  lemma TailMembers(a: seq<TrustedKey>, key: TrustedKey)
    requires Ordered(a) && a != []
    ensures key in a[1..] <==> key in a && key != a[0]
  {
    BelowIsStrict(key.kid, key.kid);
    if key in a && key != a[0] {
      var i :| 0 <= i < |a| && a[i] == key;
      assert a[1..][i - 1] == key;
    }
    if key in a[1..] {
      var i :| 0 <= i < |a[1..]| && a[1..][i] == key;
      assert a[i + 1] == key;
    }
  }

  lemma {:induction false} BelowIsStrict(a: Bytes, b: Bytes)
    ensures !(Below(a, b) && Below(b, a))
  {
    if a != [] && b != [] {
      BelowIsStrict(a[1..], b[1..]);
    }
  }

  // ----- sorting the map's values -----

  function PlaceKey(key: TrustedKey, sorted: seq<TrustedKey>): seq<TrustedKey> {
    if sorted == [] || Below(key.kid, sorted[0].kid) then [key] + sorted
    else [sorted[0]] + PlaceKey(key, sorted[1..])
  }

  function SortKeys(values: seq<TrustedKey>): seq<TrustedKey> {
    if values == [] then [] else PlaceKey(values[0], SortKeys(values[1..]))
  }

  /** The values of a store in some iteration order, each once. */
  ghost predicate Enumerates(values: seq<TrustedKey>, keys: KeyMap) {
    && (forall i, j :: 0 <= i < j < |values| ==> values[i].kid != values[j].kid)
    && (forall key :: key in values ==> key.kid in keys && keys[key.kid] == key)
    && (forall kid :: kid in keys ==> keys[kid] in values)
  }

  lemma {:induction false} BelowTotal(a: Bytes, b: Bytes)
    ensures Below(a, b) || a == b || Below(b, a)
  {
    if a != [] && b != [] {
      BelowTotal(a[1..], b[1..]);
      assert a == [a[0]] + a[1..] && b == [b[0]] + b[1..];
    }
  }

  lemma {:induction false} BelowTransitive(a: Bytes, b: Bytes, c: Bytes)
    requires Below(a, b) && Below(b, c)
    ensures Below(a, c)
  {
    if a != [] && a[0] == b[0] == c[0] {
      BelowTransitive(a[1..], b[1..], c[1..]);
    }
  }

  lemma {:induction false} PlaceKeyKeepsOrder(key: TrustedKey, sorted: seq<TrustedKey>)
    requires Ordered(sorted) && forall other :: other in sorted ==> other.kid != key.kid
    ensures Ordered(PlaceKey(key, sorted))
    ensures forall other :: other in PlaceKey(key, sorted) <==> other == key || other in sorted
  {
    if sorted != [] {
      var first := sorted[0];
      assert sorted == [first] + sorted[1..];
      BelowTotal(key.kid, first.kid);
      if Below(key.kid, first.kid) {
        forall i | 0 <= i < |sorted| ensures Below(key.kid, sorted[i].kid) {
          if i > 0 {
            BelowTransitive(key.kid, first.kid, sorted[i].kid);
          }
        }
      } else {
        var rest := PlaceKey(key, sorted[1..]);
        assert first in sorted;
        PlaceKeyKeepsOrder(key, sorted[1..]);
        forall i | 0 <= i < |rest| ensures Below(first.kid, rest[i].kid) {
          assert rest[i] in rest;
        }
      }
    }
  }

  lemma {:induction false} SortKeysOrders(values: seq<TrustedKey>)
    requires forall i, j :: 0 <= i < j < |values| ==> values[i].kid != values[j].kid
    ensures Ordered(SortKeys(values))
    ensures forall key :: key in SortKeys(values) <==> key in values
  {
    if values != [] {
      SortKeysOrders(values[1..]);
      assert values == [values[0]] + values[1..];
      PlaceKeyKeepsOrder(values[0], SortKeys(values[1..]));
    }
  }

  /** The digest of a store does not depend on the order in which its map is iterated. */
  lemma ScopeIgnoresIterationOrder(keys: KeyMap, a: seq<TrustedKey>, b: seq<TrustedKey>)
    requires Enumerates(a, keys) && Enumerates(b, keys)
    ensures Lists(SortKeys(a), keys) && ScopeMessage(SortKeys(a)) == ScopeMessage(SortKeys(b))
  {
    SortKeysOrders(a);
    SortKeysOrders(b);
    KeyListUnique(SortKeys(a), SortKeys(b));
  }

  // ----- refreshing -----

  /** Merging newly fetched keys: a key id already present keeps its key. */
  function MergeKeys(keys: KeyMap, fetched: seq<TrustedKey>): KeyMap
    decreases |fetched|
  {
    if fetched == [] then keys
    else MergeKeys(if fetched[0].kid in keys then keys else keys[fetched[0].kid := fetched[0]], fetched[1..])
  }

  /** The first fetched key with this id. */
  ghost predicate FirstFetched(fetched: seq<TrustedKey>, kid: KeyId, key: TrustedKey) {
    exists i :: 0 <= i < |fetched| && fetched[i] == key && key.kid == kid && forall j :: 0 <= j < i ==> fetched[j].kid != kid
  }

  /** A refresh only adds: every earlier key stays as it was, and each new id holds the first fetched key with that id. */
  lemma {:induction false} RefreshOnlyAdds(keys: KeyMap, fetched: seq<TrustedKey>, kid: KeyId)
    ensures kid in keys ==> kid in MergeKeys(keys, fetched) && MergeKeys(keys, fetched)[kid] == keys[kid]
    ensures kid in MergeKeys(keys, fetched) <==> kid in keys || exists key :: key in fetched && key.kid == kid
    ensures kid !in keys && kid in MergeKeys(keys, fetched) ==> FirstFetched(fetched, kid, MergeKeys(keys, fetched)[kid])
    decreases |fetched|
  {
    if fetched != [] {
      var merged := if fetched[0].kid in keys then keys else keys[fetched[0].kid := fetched[0]];
      RefreshOnlyAdds(merged, fetched[1..], kid);
      assert fetched == [fetched[0]] + fetched[1..];
      if kid !in keys && kid in MergeKeys(keys, fetched) {
        var key := MergeKeys(keys, fetched)[kid];
        if fetched[0].kid == kid {
          assert fetched[0] == key;
        } else {
          var i :| 0 <= i < |fetched| - 1 && fetched[1..][i] == key && key.kid == kid
                   && forall j :: 0 <= j < i ==> fetched[1..][j].kid != kid;
          assert forall j :: 0 < j < i + 1 ==> fetched[j] == fetched[1..][j - 1];
          assert fetched[i + 1] == key;
        }
      }
    }
  }
}
