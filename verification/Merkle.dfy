/** Walking a Merkle inclusion path (section 2.1 of RFC 9162). */
module Merkle {
  import opened Wrappers
  import opened Fingerprints

  const MAX_HASH_PATH_LEN: nat := 63

  type Hash = Bytes -> Fingerprint

  function LeafHash(sha256: Hash, event: Bytes): Fingerprint {
    sha256([0] + event)
  }

  function NodeHash(sha256: Hash, left: Fingerprint, right: Fingerprint): Fingerprint {
    sha256([1] + left + right)
  }

  datatype PathError = EmptyTree | LeafOutOfRange | PathTooLong | PathIncomplete

  datatype Position = Position(hash: Fingerprint, index: nat, remaining: nat)

  /** The sibling is on the left when the index is odd or the node is the last of its level. */
  predicate SiblingOnLeft(index: nat, remaining: nat) {
    index % 2 == 1 || index == remaining
  }

  function Join(sha256: Hash, current: Fingerprint, sibling: Fingerprint, onLeft: bool): Fingerprint {
    if onLeft then NodeHash(sha256, sibling, current) else NodeHash(sha256, current, sibling)
  }

  function Climb(sha256: Hash, at: Position, path: seq<Fingerprint>): Position
    decreases |path|
  {
    if path == [] then at
    else
      var next := Join(sha256, at.hash, path[0], SiblingOnLeft(at.index, at.remaining));
      Climb(sha256, Position(next, at.index / 2, at.remaining / 2), path[1..])
  }

  method WalkInclusionPath(sha256: Hash, event: Bytes, leafIndex: nat, treeSize: nat, path: seq<Fingerprint>)
    returns (root: Result<Fingerprint, PathError>)
    ensures root == Walked(sha256, event, leafIndex, treeSize, path)
  {
    if treeSize == 0 {
      return Err(EmptyTree);
    }
    if leafIndex >= treeSize {
      return Err(LeafOutOfRange);
    }
    if |path| > MAX_HASH_PATH_LEN {
      return Err(PathTooLong);
    }
    var current: Fingerprint := LeafHash(sha256, event);
    var index: nat, remaining: nat := leafIndex, treeSize - 1;
    for i := 0 to |path|
      invariant Climb(sha256, Position(current, index, remaining), path[i..])
                == Climb(sha256, Position(LeafHash(sha256, event), leafIndex, treeSize - 1), path)
    {
      assert path[i..][1..] == path[i + 1..];
      current := Join(sha256, current, path[i], SiblingOnLeft(index, remaining));
      index, remaining := index / 2, remaining / 2;
    }
    ghost var end := Position(current, index, remaining);
    while remaining > 0
      invariant (index == remaining) == (end.index == end.remaining)
      invariant index == remaining || remaining == end.remaining
      invariant remaining == 0 ==> index == 0 || (index == end.index && end.remaining == 0)
    {
      if index != remaining {
        return Err(PathIncomplete);
      }
      index, remaining := index / 2, remaining / 2;
    }
    return if index != 0 then Err(PathIncomplete) else Ok(current);
  }

  /** What the walk computes: accepted when, after the path, the node is the last one of its level. */
  function Walked(sha256: Hash, event: Bytes, leafIndex: nat, treeSize: nat, path: seq<Fingerprint>)
    : Result<Fingerprint, PathError>
  {
    if treeSize == 0 then Err(EmptyTree)
    else if leafIndex >= treeSize then Err(LeafOutOfRange)
    else if |path| > MAX_HASH_PATH_LEN then Err(PathTooLong)
    else
      var end := Climb(sha256, Position(LeafHash(sha256, event), leafIndex, treeSize - 1), path);
      if end.index != end.remaining then Err(PathIncomplete) else Ok(end.hash)
  }

  // ----- the tree the log hashes -----

  function Pow2(n: nat): (p: nat)
    ensures p >= 1
  {
    if n == 0 then 1 else 2 * Pow2(n - 1)
  }

  /** The largest power of two below `n`, given by its exponent. */
  function SplitLevel(n: nat): (t: nat)
    requires n >= 2
    ensures Pow2(t) < n <= Pow2(t + 1)
  {
    if n == 2 then 0 else SplitLevel((n + 1) / 2) + 1
  }

  function SplitPoint(n: nat): (k: nat)
    requires n >= 2
    ensures 0 < k < n <= 2 * k
  {
    Pow2(SplitLevel(n))
  }

  datatype Tree = Leaf(event: Bytes) | Node(left: Tree, right: Tree)

  /** The shape of section 2.1.1 of RFC 9162: split at the largest power of two below the size. */
  function TreeOf(leaves: seq<Bytes>): Tree
    requires leaves != []
  {
    if |leaves| == 1 then Leaf(leaves[0])
    else
      var k := SplitPoint(|leaves|);
      Node(TreeOf(leaves[..k]), TreeOf(leaves[k..]))
  }

  function Size(t: Tree): (n: nat)
    ensures n >= 1
  {
    match t
    case Leaf(_) => 1
    case Node(left, right) => Size(left) + Size(right)
  }

  function EventAt(t: Tree, m: nat): Bytes
    requires m < Size(t)
  {
    match t
    case Leaf(event) => event
    case Node(left, right) => if m < Size(left) then EventAt(left, m) else EventAt(right, m - Size(left))
  }

  /** Merkle Tree Hash. */
  function TreeHash(sha256: Hash, t: Tree): Fingerprint {
    match t
    case Leaf(event) => sha256([0] + event)
    case Node(left, right) => sha256([1] + TreeHash(sha256, left) + TreeHash(sha256, right))
  }

  /** Inclusion proof of leaf `m`, section 2.1.3.1: the siblings from the leaf upwards. */
  function InclusionPath(sha256: Hash, t: Tree, m: nat): seq<Fingerprint>
    requires m < Size(t)
  {
    match t
    case Leaf(_) => []
    case Node(left, right) =>
      if m < Size(left) then InclusionPath(sha256, left, m) + [TreeHash(sha256, right)]
      else InclusionPath(sha256, right, m - Size(left)) + [TreeHash(sha256, left)]
  }

  /** For each sibling of the inclusion proof, whether it stands on the left. */
  function Sides(t: Tree, m: nat): seq<bool>
    requires m < Size(t)
  {
    match t
    case Leaf(_) => []
    case Node(left, right) =>
      if m < Size(left) then Sides(left, m) + [false] else Sides(right, m - Size(left)) + [true]
  }

  ghost predicate Full(t: Tree, h: nat) {
    if h == 0 then t.Leaf? else t.Node? && Full(t.left, h - 1) && Full(t.right, h - 1)
  }

  /** A full left half, and a right half of the same shape that is no larger. */
  ghost predicate LogShaped(t: Tree) {
    t.Leaf? || exists h: nat :: Full(t.left, h) && LogShaped(t.right) && Size(t.right) <= Pow2(h)
  }

  lemma {:induction false} FullSize(t: Tree, h: nat)
    requires Full(t, h)
    ensures Size(t) == Pow2(h)
  {
    if h > 0 {
      FullSize(t.left, h - 1);
      FullSize(t.right, h - 1);
    }
  }

  lemma {:induction false} FullTree(leaves: seq<Bytes>, h: nat)
    requires |leaves| == Pow2(h)
    ensures Full(TreeOf(leaves), h)
  {
    if h > 0 {
      SplitOfPower(|leaves|, h);
      var k := SplitPoint(|leaves|);
      FullTree(leaves[..k], h - 1);
      FullTree(leaves[k..], h - 1);
    }
  }

  lemma {:induction false} TreeShape(leaves: seq<Bytes>)
    requires leaves != []
    ensures LogShaped(TreeOf(leaves)) && Size(TreeOf(leaves)) == |leaves|
    decreases |leaves|
  {
    if |leaves| >= 2 {
      var h := SplitLevel(|leaves|);
      var k := Pow2(h);
      FullTree(leaves[..k], h);
      FullSize(TreeOf(leaves[..k]), h);
      TreeShape(leaves[k..]);
    }
  }

  lemma {:induction false} TreeEvents(leaves: seq<Bytes>, m: nat)
    requires m < |leaves|
    ensures Size(TreeOf(leaves)) == |leaves| && EventAt(TreeOf(leaves), m) == leaves[m]
    decreases |leaves|
  {
    TreeShape(leaves);
    if |leaves| >= 2 {
      var k := SplitPoint(|leaves|);
      TreeShape(leaves[..k]);
      if m < k {
        TreeEvents(leaves[..k], m);
      } else {
        TreeEvents(leaves[k..], m - k);
      }
    }
  }

  // ----- shifting -----

  function Shift(x: nat, n: nat): nat {
    if n == 0 then x else Shift(x / 2, n - 1)
  }

  /** `q` times two to the `n`. */
  function Scale(q: nat, n: nat): nat {
    if n == 0 then q else 2 * Scale(q, n - 1)
  }

  lemma {:induction false} ScaleNext(q: nat, n: nat)
    ensures Scale(q + 1, n) == Scale(q, n) + Pow2(n)
    ensures Scale(2 * q, n) == Scale(q, n + 1)
  {
    if n > 0 {
      ScaleNext(q, n - 1);
    }
  }

  lemma {:induction false} ShiftBounds(x: nat, n: nat, c: nat)
    ensures x >= Scale(c, n) ==> Shift(x, n) >= c
    ensures x < Scale(c, n) ==> Shift(x, n) < c
  {
    if n > 0 {
      ShiftBounds(x / 2, n - 1, c);
    }
  }

  lemma {:induction false} ShiftAdds(x: nat, a: nat, b: nat)
    ensures Shift(Shift(x, a), b) == Shift(x, a + b)
  {
    if a > 0 {
      ShiftAdds(x / 2, a - 1, b);
    }
  }

  lemma {:induction false} ClimbShifts(sha256: Hash, at: Position, path: seq<Fingerprint>)
    ensures Climb(sha256, at, path).index == Shift(at.index, |path|)
    ensures Climb(sha256, at, path).remaining == Shift(at.remaining, |path|)
    decreases |path|
  {
    if path != [] {
      var next := Join(sha256, at.hash, path[0], SiblingOnLeft(at.index, at.remaining));
      ClimbShifts(sha256, Position(next, at.index / 2, at.remaining / 2), path[1..]);
    }
  }

  /**
   * Which paths are accepted: the hashes never matter and the length matters only through this shift,
   * so next to the right edge a path shorter or longer than the tree is deep is accepted too.
   */
  lemma AcceptedIff(sha256: Hash, event: Bytes, leafIndex: nat, treeSize: nat, path: seq<Fingerprint>)
    ensures Walked(sha256, event, leafIndex, treeSize, path).Ok?
            <==> leafIndex < treeSize && |path| <= 63
                 && Shift(leafIndex, |path|) == Shift(treeSize - 1, |path|)
  {
    if leafIndex < treeSize {
      ClimbShifts(sha256, Position(LeafHash(sha256, event), leafIndex, treeSize - 1), path);
    }
  }

  // ----- positions in the tree -----

  lemma {:induction false} Pow2Less(a: nat, b: nat)
    ensures Pow2(a) < Pow2(b) <==> a < b
  {
    if a > 0 && b > 0 {
      Pow2Less(a - 1, b - 1);
    }
  }

  lemma SplitOfPower(n: nat, h: nat)
    requires n >= 2 && n == Pow2(h)
    ensures h > 0 && SplitLevel(n) == h - 1
  {
    var t := SplitLevel(n);
    Pow2Less(t, h);
    Pow2Less(t + 1, h);
  }

  lemma {:induction false} ShiftLast(x: nat, n: nat)
    ensures Shift(x, n + 1) == Shift(x, n) / 2
  {
    if n > 0 {
      ShiftLast(x / 2, n - 1);
    }
  }

  /** Where the two halves of a full subtree lie, and that its left half is not last of its level. */
  lemma Halves(h: nat, q: nat, last: nat)
    requires Scale(q, h + 1) + Pow2(h) <= last
    ensures Scale(2 * q, h) == Scale(q, h + 1) && Scale(2 * q + 1, h) == Scale(q, h + 1) + Pow2(h)
    ensures Shift(last, h) >= 2 * q + 1 && Shift(last, h + 1) == Shift(last, h) / 2
  {
    ScaleNext(q, h);
    ScaleNext(2 * q, h);
    ShiftBounds(last, h, 2 * q + 1);
    ShiftLast(last, h);
  }

  ghost predicate Multiple(offset: nat, h: nat) {
    exists q: nat :: offset == Scale(q, h)
  }

  lemma {:induction false} MultipleDown(offset: nat, a: nat, b: nat)
    requires b <= a && Multiple(offset, a)
    ensures Multiple(offset, b)
    decreases a
  {
    if b < a {
      var q: nat :| offset == Scale(q, a);
      ScaleNext(q, a - 1);
      assert offset == Scale(2 * q, a - 1);
      MultipleDown(offset, a - 1, b);
    }
  }

  /** Enough alignment for a subtree of this size to start at `offset`. */
  ghost predicate Aligned(offset: nat, t: Tree) {
    exists h: nat :: Size(t) <= Pow2(h) && Multiple(offset, h)
  }

  lemma EdgeOffset(t: Tree, h: nat, offset: nat) returns (q: nat)
    requires t.Node? && Size(t.left) == Pow2(h) && Aligned(offset, t)
    ensures offset == Scale(q, h + 1)
  {
    var a: nat :| Size(t) <= Pow2(a) && Multiple(offset, a);
    Pow2Less(h, a);
    MultipleDown(offset, a, h + 1);
    q :| offset == Scale(q, h + 1);
  }

  lemma LeftOfEdge(t: nat, q: nat, last: nat)
    requires Scale(q, t + 1) + Pow2(t) <= last < Scale(q, t + 1) + Pow2(t + 1)
    ensures Shift(last, t) == 2 * q + 1
  {
    ScaleNext(q, t);
    ScaleNext(2 * q, t);
    ScaleNext(2 * q + 1, t);
    ShiftBounds(last, t, 2 * q + 1);
    ShiftBounds(last, t, 2 * q + 2);
  }

  lemma {:induction false} ScaleZero(n: nat)
    ensures Scale(0, n) == 0
  {
    if n > 0 {
      ScaleZero(n - 1);
    }
  }

  lemma {:induction false} Pow2Grows(n: nat)
    ensures n < Pow2(n)
  {
    if n > 0 {
      Pow2Grows(n - 1);
    }
  }

  /** Paths within the length limit are those of every tree of up to 2^63 leaves. */
  lemma {:induction false} PathLength(sha256: Hash, t: Tree, m: nat, h: nat)
    requires LogShaped(t) && m < Size(t) <= Pow2(h)
    ensures |InclusionPath(sha256, t, m)| <= h
  {
    if t.Node? {
      var k: nat :| Full(t.left, k) && LogShaped(t.right) && Size(t.right) <= Pow2(k);
      FullSize(t.left, k);
      Pow2Less(k, h);
      if m < Size(t.left) {
        FullPathLength(sha256, t.left, m, k);
      } else {
        PathLength(sha256, t.right, m - Size(t.left), k);
      }
    }
  }

  lemma {:induction false} FullPathLength(sha256: Hash, t: Tree, m: nat, h: nat)
    requires Full(t, h) && m < Size(t)
    ensures |InclusionPath(sha256, t, m)| == h
  {
    if h > 0 {
      if m < Size(t.left) {
        FullPathLength(sha256, t.left, m, h - 1);
      } else {
        FullPathLength(sha256, t.right, m - Size(t.left), h - 1);
      }
    }
  }

  // ----- completeness and soundness -----

  /** The sides a climb takes, decided by the index alone. */
  function SidesTaken(index: nat, remaining: nat, n: nat): (sides: seq<bool>)
    ensures |sides| == n
  {
    if n == 0 then [] else [SiblingOnLeft(index, remaining)] + SidesTaken(index / 2, remaining / 2, n - 1)
  }

  function Fold(sha256: Hash, current: Fingerprint, path: seq<Fingerprint>, sides: seq<bool>): Fingerprint
    requires |path| == |sides|
    decreases |path|
  {
    if path == [] then current
    else
      var n := |path| - 1;
      Join(sha256, Fold(sha256, current, path[..n], sides[..n]), path[n], sides[n])
  }

  lemma {:induction false} FoldFront(sha256: Hash, current: Fingerprint, path: seq<Fingerprint>, sides: seq<bool>)
    requires |path| == |sides| > 0
    ensures Fold(sha256, current, path, sides) == Fold(sha256, Join(sha256, current, path[0], sides[0]), path[1..], sides[1..])
    decreases |path|
  {
    var n := |path| - 1;
    if n > 0 {
      FoldFront(sha256, current, path[..n], sides[..n]);
      assert path[..n][1..] == path[1..][..n - 1] && sides[..n][1..] == sides[1..][..n - 1];
    }
  }

  lemma {:induction false} ClimbFolds(sha256: Hash, at: Position, path: seq<Fingerprint>)
    ensures Climb(sha256, at, path).hash == Fold(sha256, at.hash, path, SidesTaken(at.index, at.remaining, |path|))
    decreases |path|
  {
    if path != [] {
      var next := Join(sha256, at.hash, path[0], SiblingOnLeft(at.index, at.remaining));
      ClimbFolds(sha256, Position(next, at.index / 2, at.remaining / 2), path[1..]);
      var sides := SidesTaken(at.index, at.remaining, |path|);
      FoldFront(sha256, at.hash, path, sides);
      assert sides[1..] == SidesTaken(at.index / 2, at.remaining / 2, |path| - 1);
    }
  }

  ghost predicate Collision(sha256: Hash, pair: (Bytes, Bytes)) {
    pair.0 != pair.1 && sha256(pair.0) == sha256(pair.1)
  }

  lemma NodeDetermined(sha256: Hash, a: Fingerprint, b: Fingerprint, left: Fingerprint, right: Fingerprint)
    returns (pair: (Bytes, Bytes))
    requires NodeHash(sha256, a, b) == NodeHash(sha256, left, right)
    ensures Collision(sha256, pair) || (a == left && b == right)
  {
    var x: Bytes, y: Bytes := [1] + a + b, [1] + left + right;
    pair := (x, y);
    if x == y {
      assert a == x[1..33] == y[1..33] == left;
      assert b == x[33..] == y[33..] == right;
    }
  }

  lemma LeafDetermined(sha256: Hash, event: Bytes, other: Bytes) returns (pair: (Bytes, Bytes))
    requires LeafHash(sha256, event) == LeafHash(sha256, other)
    ensures Collision(sha256, pair) || event == other
  {
    var x: Bytes, y: Bytes := [0] + event, [0] + other;
    pair := (x, y);
    if x == y {
      assert event == x[1..] == y[1..] == other;
    }
  }

  /** Leaves and inner nodes are hashed under different prefixes. */
  lemma LeafIsNoNode(sha256: Hash, event: Bytes, left: Fingerprint, right: Fingerprint) returns (pair: (Bytes, Bytes))
    requires LeafHash(sha256, event) == NodeHash(sha256, left, right)
    ensures Collision(sha256, pair)
  {
    var x: Bytes, y: Bytes := [0] + event, [1] + left + right;
    pair := (x, y);
    assert x[0] != y[0];
  }

  /** Steps that lead from an event to a tree's hash are some leaf's proof of that very event, or show a collision. */
  lemma {:induction false} FoldReachesLeaf(
    sha256: Hash, t: Tree, event: Bytes, path: seq<Fingerprint>, sides: seq<bool>)
    returns (m: nat, pair: (Bytes, Bytes))
    requires |path| == |sides| && Fold(sha256, LeafHash(sha256, event), path, sides) == TreeHash(sha256, t)
    ensures Collision(sha256, pair)
            || (m < Size(t) && event == EventAt(t, m)
                && path == InclusionPath(sha256, t, m) && sides == Sides(t, m))
    decreases |path|
  {
    m := 0;
    var n := |path| - 1;
    match t
    case Leaf(other) =>
      if path == [] {
        pair := LeafDetermined(sha256, event, other);
      } else {
        var prior := Fold(sha256, LeafHash(sha256, event), path[..n], sides[..n]);
        var (a, b) := if sides[n] then (path[n], prior) else (prior, path[n]);
        pair := LeafIsNoNode(sha256, other, a, b);
      }
    case Node(left, right) =>
      var (l, r) := (TreeHash(sha256, left), TreeHash(sha256, right));
      if path == [] {
        pair := LeafIsNoNode(sha256, event, l, r);
      } else {
        var prior := Fold(sha256, LeafHash(sha256, event), path[..n], sides[..n]);
        var (a, b) := if sides[n] then (path[n], prior) else (prior, path[n]);
        pair := NodeDetermined(sha256, a, b, l, r);
        if !Collision(sha256, pair) {
          var child := if sides[n] then right else left;
          m, pair := FoldReachesLeaf(sha256, child, event, path[..n], sides[..n]);
          m := if sides[n] then m + Size(left) else m;
          assert path == path[..n] + [path[n]] && sides == sides[..n] + [sides[n]];
        }
      }
  }

  /** Two leaves whose climbs take the same sides and meet at the top are the same leaf. */
  lemma {:induction false} SidesDetermineIndex(i: nat, j: nat, last: nat, n: nat)
    requires i <= last && j <= last && Shift(i, n) == Shift(j, n)
    requires SidesTaken(i, last, n) == SidesTaken(j, last, n)
    ensures i == j
    decreases n
  {
    if n > 0 {
      var a, b := SidesTaken(i, last, n), SidesTaken(j, last, n);
      assert a[0] == b[0] && a[1..] == b[1..];
      SidesDetermineIndex(i / 2, j / 2, last / 2, n - 1);
    }
  }

  lemma {:induction false} SidesOfFull(t: Tree, m: nat, h: nat, q: nat, last: nat)
    requires Full(t, h) && m < Size(t) && Scale(q, h) + Pow2(h) - 1 <= last
    ensures |Sides(t, m)| == h && Sides(t, m) == SidesTaken(Scale(q, h) + m, last, h)
    ensures Shift(Scale(q, h) + m, h) == q
    decreases h
  {
    if h > 0 {
      FullSize(t.left, h - 1);
      Halves(h - 1, q, last);
      var i := Scale(q, h) + m;
      ShiftLast(i, h - 1);
      SidesTakenAppend(i, last, h - 1);
      if m < Size(t.left) {
        SidesOfFull(t.left, m, h - 1, 2 * q, last);
      } else {
        SidesOfFull(t.right, m - Size(t.left), h - 1, 2 * q + 1, last);
      }
    }
  }

  lemma {:induction false} SidesTakenAppend(index: nat, remaining: nat, n: nat)
    ensures SidesTaken(index, remaining, n + 1)
            == SidesTaken(index, remaining, n) + [SiblingOnLeft(Shift(index, n), Shift(remaining, n))]
    decreases n
  {
    if n > 0 {
      SidesTakenAppend(index / 2, remaining / 2, n - 1);
    }
  }

  /** What the climb from leaf `m` must do for the sides of its proof to be the ones taken. */
  ghost predicate SidesAgree(t: Tree, m: nat, index: nat, last: nat)
    requires m < Size(t)
  {
    var n := |Sides(t, m)|;
    Sides(t, m) == SidesTaken(index, last, n) && Shift(index, n) == Shift(last, n)
  }

  lemma EdgeFromLeft(t: Tree, m: nat, h: nat, q: nat, offset: nat, last: nat)
    requires t.Node? && Full(t.left, h) && m < Size(t.left) && offset == Scale(q, h + 1)
    requires offset + Pow2(h) <= last < offset + Pow2(h + 1)
    ensures SidesAgree(t, m, offset + m, last)
  {
    Halves(h, q, last);
    LeftOfEdge(h, q, last);
    SidesOfFull(t.left, m, h, 2 * q, last);
    SidesTakenAppend(offset + m, last, h);
    ShiftLast(offset + m, h);
  }

  lemma EdgeFromRight(t: Tree, m: nat, index: nat, last: nat)
    requires t.Node? && m < Size(t.right) && SidesAgree(t.right, m, index, last)
    ensures SidesAgree(t, m + Size(t.left), index, last)
  {
    var n := |Sides(t.right, m)|;
    SidesTakenAppend(index, last, n);
    ShiftLast(index, n);
    ShiftLast(last, n);
  }

  /** A subtree that ends at the last leaf: its proofs' sides are taken, and end last of their level. */
  lemma {:induction false} SidesOfEdge(t: Tree, m: nat, offset: nat, last: nat)
    requires LogShaped(t) && m < Size(t) && last == offset + Size(t) - 1 && Aligned(offset, t)
    ensures SidesAgree(t, m, offset + m, last)
  {
    if t.Node? {
      var h: nat :| Full(t.left, h) && LogShaped(t.right) && Size(t.right) <= Pow2(h);
      FullSize(t.left, h);
      var q := EdgeOffset(t, h, offset);
      if m < Size(t.left) {
        EdgeFromLeft(t, m, h, q, offset, last);
      } else {
        Halves(h, q, last);
        assert Multiple(offset + Size(t.left), h);
        SidesOfEdge(t.right, m - Size(t.left), offset + Size(t.left), last);
        EdgeFromRight(t, m - Size(t.left), offset + m, last);
      }
    }
  }

  lemma WholeTreeSides(t: Tree, m: nat, last: nat)
    requires LogShaped(t) && m < Size(t) && last == Size(t) - 1
    ensures SidesAgree(t, m, m, last)
  {
    var n := Size(t);
    Pow2Grows(n);
    ScaleZero(n);
    assert Multiple(0, n);
    SidesOfEdge(t, m, 0, last);
  }

  lemma {:induction false} ProofFolds(sha256: Hash, t: Tree, m: nat)
    requires m < Size(t)
    ensures |Sides(t, m)| == |InclusionPath(sha256, t, m)|
    ensures Fold(sha256, LeafHash(sha256, EventAt(t, m)), InclusionPath(sha256, t, m), Sides(t, m)) == TreeHash(sha256, t)
  {
    if t.Node? {
      var inLeft := m < Size(t.left);
      var (child, i) := if inLeft then (t.left, m) else (t.right, m - Size(t.left));
      ProofFolds(sha256, child, i);
      var path, sides := InclusionPath(sha256, t, m), Sides(t, m);
      var n := |path| - 1;
      assert path[..n] == InclusionPath(sha256, child, i) && sides[..n] == Sides(child, i);
    }
  }

  lemma ProofClimbs(sha256: Hash, t: Tree, m: nat, last: nat, path: seq<Fingerprint>)
    requires LogShaped(t) && m < Size(t) && last == Size(t) - 1 && path == InclusionPath(sha256, t, m)
    ensures var end := Climb(sha256, Position(LeafHash(sha256, EventAt(t, m)), m, last), path);
            end.hash == TreeHash(sha256, t) && end.index == end.remaining
  {
    var start := Position(LeafHash(sha256, EventAt(t, m)), m, last);
    WholeTreeSides(t, m, last);
    ProofFolds(sha256, t, m);
    ClimbFolds(sha256, start, path);
    ClimbShifts(sha256, start, path);
  }

  /** Completeness: the standard's own inclusion proof leads to the standard's tree hash. */
  lemma WalkAcceptsInclusionProof(sha256: Hash, leaves: seq<Bytes>, t: Tree, m: nat)
    requires m < |leaves| && t == TreeOf(leaves) && Size(t) == |leaves|
    requires |InclusionPath(sha256, t, m)| <= MAX_HASH_PATH_LEN
    ensures Walked(sha256, leaves[m], m, |leaves|, InclusionPath(sha256, t, m)) == Ok(TreeHash(sha256, t))
  {
    TreeShape(leaves);
    TreeEvents(leaves, m);
    ProofClimbs(sha256, t, m, |leaves| - 1, InclusionPath(sha256, t, m));
  }

  lemma ClimbProvesInclusion(sha256: Hash, t: Tree, event: Bytes, index: nat, last: nat, path: seq<Fingerprint>)
    returns (pair: (Bytes, Bytes))
    requires LogShaped(t) && index <= last && last == Size(t) - 1
    requires var end := Climb(sha256, Position(LeafHash(sha256, event), index, last), path);
             end.hash == TreeHash(sha256, t) && end.index == end.remaining
    ensures Collision(sha256, pair) || (event == EventAt(t, index) && path == InclusionPath(sha256, t, index))
  {
    var start := Position(LeafHash(sha256, event), index, last);
    ClimbFolds(sha256, start, path);
    ClimbShifts(sha256, start, path);
    var m, found := FoldReachesLeaf(sha256, t, event, path, SidesTaken(index, last, |path|));
    pair := found;
    if !Collision(sha256, pair) {
      WholeTreeSides(t, m, last);
      SidesDetermineIndex(index, m, last, |path|);
    }
  }

  /**
   * Soundness: a walk that ends in the log's own tree hash is for the event the log holds at that very
   * index, by that leaf's own inclusion path; otherwise it exhibits two messages with one hash.
   */
  lemma WalkProvesInclusion(
    sha256: Hash, leaves: seq<Bytes>, t: Tree, event: Bytes, index: nat, path: seq<Fingerprint>)
    returns (pair: (Bytes, Bytes))
    requires leaves != [] && t == TreeOf(leaves)
    requires Walked(sha256, event, index, |leaves|, path) == Ok(TreeHash(sha256, t))
    ensures Collision(sha256, pair)
            || (index < |leaves| && event == leaves[index] && index < Size(t) && path == InclusionPath(sha256, t, index))
  {
    TreeShape(leaves);
    TreeEvents(leaves, index);
    pair := ClimbProvesInclusion(sha256, t, event, index, |leaves| - 1, path);
  }
}
