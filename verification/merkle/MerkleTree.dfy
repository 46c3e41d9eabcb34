/** The evidence tree: leaf and node hashes, one level of pairing, the whole level loop and the RFC 6962 recursion. */
module MerkleTree {
  import opened Bytes
  import opened Binary

  function LeafHash(h: HashFn, line: Bytes): Digest {
    h([0] + line)
  }

  function NodeHash(h: HashFn, left: Digest, right: Digest): Digest {
    h([1] + left.bytes + right.bytes)
  }

  function Leaves(h: HashFn, lines: seq<Bytes>): (level: seq<Digest>)
    ensures |level| == |lines|
    ensures forall i :: 0 <= i < |lines| ==> level[i] == LeafHash(h, lines[i])
  {
    seq(|lines|, i requires 0 <= i < |lines| => LeafHash(h, lines[i]))
  }

  /** The Merkle Tree Hash of section 2.1 of RFC 6962. */
  function TreeHash(h: HashFn, lines: seq<Bytes>): Digest
    decreases |lines|
  {
    if |lines| == 0 then h([])
    else if |lines| == 1 then LeafHash(h, lines[0])
    else
      var k := Split(|lines|);
      NodeHash(h, TreeHash(h, lines[..k]), TreeHash(h, lines[k..]))
  }

  /** The node at position i of the next level up: a pair hashed together, or an odd last node promoted. */
  function Parent(h: HashFn, level: seq<Digest>, i: nat): Digest
    requires 2 * i < |level|
  {
    if 2 * i + 1 < |level| then NodeHash(h, level[2 * i], level[2 * i + 1]) else level[2 * i]
  }

  /** The next level up. */
  function PairUp(h: HashFn, level: seq<Digest>): (next: seq<Digest>)
    ensures |next| == (|level| + 1) / 2
    decreases |level|
  {
    if |level| < 2 then level else [NodeHash(h, level[0], level[1])] + PairUp(h, level[2..])
  }

  lemma {:induction false} PairUpAt(h: HashFn, level: seq<Digest>, i: nat)
    requires 2 * i < |level|
    ensures PairUp(h, level)[i] == Parent(h, level, i)
    decreases |level|
  {
    if i > 0 {
      PairUpAt(h, level[2..], i - 1);
      assert PairUp(h, level)[i] == PairUp(h, level[2..])[i - 1];
    }
  }

  lemma {:induction false} PairUpSlices(h: HashFn, level: seq<Digest>, j: nat)
    requires 2 * j <= |level|
    ensures PairUp(h, level)[..j] == PairUp(h, level[..2 * j])
    ensures PairUp(h, level)[j..] == PairUp(h, level[2 * j..])
    decreases j
  {
    if j > 0 {
      var rest, first := level[2..], NodeHash(h, level[0], level[1]);
      PairUpSlices(h, rest, j - 1);
      assert level[..2 * j][2..] == rest[..2 * (j - 1)];
      assert level[2 * j..] == rest[2 * (j - 1)..];
      assert PairUp(h, level) == [first] + PairUp(h, rest);
      assert PairUp(h, level[..2 * j]) == [first] + PairUp(h, rest[..2 * (j - 1)]);
    }
  }

  lemma PairUpByIndex(h: HashFn, level: seq<Digest>, next: seq<Digest>)
    requires |next| == (|level| + 1) / 2
    requires forall i :: 0 <= i < |next| ==> next[i] == Parent(h, level, i)
    ensures next == PairUp(h, level)
  {
    forall i | 0 <= i < |next| ensures next[i] == PairUp(h, level)[i] {
      PairUpAt(h, level, i);
    }
  }

  /** The root of a level: pair up until one node is left. */
  function Fold(h: HashFn, level: seq<Digest>): Digest
    requires |level| > 0
    decreases |level|
  {
    if |level| == 1 then level[0] else Fold(h, PairUp(h, level))
  }

  lemma FoldOnce(h: HashFn, level: seq<Digest>)
    requires |level| > 0
    ensures Fold(h, PairUp(h, level)) == Fold(h, level)
  {
    if |level| == 1 {
      assert PairUp(h, level) == level;
    }
  }

  /** Pairwise promotion and the split at the largest power of two build one tree. */
  lemma {:induction false} FoldSplits(h: HashFn, level: seq<Digest>)
    requires |level| > 1
    ensures var k := Split(|level|);
      Fold(h, level) == NodeHash(h, Fold(h, level[..k]), Fold(h, level[k..]))
    decreases |level|
  {
    var k := Split(|level|);
    var next := PairUp(h, level);
    if |level| == 2 {
      assert next == [NodeHash(h, level[0], level[1])];
    } else {
      PairUpSlices(h, level, Split(|next|));
      FoldSplits(h, next);
      FoldOnce(h, level[k..]);
    }
  }

  lemma {:induction false} TreeHashIsFold(h: HashFn, lines: seq<Bytes>)
    requires |lines| > 0
    ensures TreeHash(h, lines) == Fold(h, Leaves(h, lines))
    decreases |lines|
  {
    if |lines| > 1 {
      var k := Split(|lines|);
      FoldSplits(h, Leaves(h, lines));
      assert Leaves(h, lines)[..k] == Leaves(h, lines[..k]);
      assert Leaves(h, lines)[k..] == Leaves(h, lines[k..]);
      TreeHashIsFold(h, lines[..k]);
      TreeHashIsFold(h, lines[k..]);
    }
  }

  /** The body of both level loops: one pass over a level with a stride of two. */
  method NextLevel(h: HashFn, level: seq<Digest>) returns (next: seq<Digest>)
    ensures next == PairUp(h, level)
  {
    next := [];
    var index := 0;
    while index < |level|
      invariant index == 2 * |next| || (index == |level| + 1 == 2 * |next|)
      invariant index <= |level| + 1
      invariant forall i :: 0 <= i < |next| ==> 2 * i < |level| && next[i] == Parent(h, level, i)
    {
      var left := level[index];
      if index + 1 >= |level| {
        next := next + [left];
      } else {
        var right := level[index + 1];
        next := next + [NodeHash(h, left, right)];
      }
      index := index + 2;
    }
    PairUpByIndex(h, level, next);
  }

  method HashLines(h: HashFn, lines: seq<Bytes>) returns (level: seq<Digest>)
    ensures level == Leaves(h, lines)
  {
    level := [];
    for i := 0 to |lines|
      invariant |level| == i
      invariant forall j :: 0 <= j < i ==> level[j] == LeafHash(h, lines[j])
    {
      level := level + [LeafHash(h, lines[i])];
    }
  }

  /** export_merkle_root: the level-by-level loop computes the RFC 6962 tree hash, the empty list included. */
  method ExportMerkleRoot(h: HashFn, lines: seq<Bytes>) returns (root: Digest)
    ensures root == TreeHash(h, lines)
  {
    if |lines| == 0 {
      return h([]);
    }
    var level := HashLines(h, lines);
    TreeHashIsFold(h, lines);
    while |level| > 1
      invariant |level| > 0
      invariant Fold(h, level) == TreeHash(h, lines)
      decreases |level|
    {
      level := NextLevel(h, level);
    }
    root := level[0];
  }

  // ---- binding: one root and one size admit one list of lines, or a collision is computed ----

  function NodeCollision(h: HashFn, l1: Digest, r1: Digest, l2: Digest, r2: Digest): (c: Collision)
    requires NodeHash(h, l1, r1) == NodeHash(h, l2, r2)
    requires l1 != l2 || r1 != r2
    ensures IsCollision(h, c)
  {
    var x, y := [1] + l1.bytes + r1.bytes, [1] + l2.bytes + r2.bytes;
    assert x[1..33] == l1.bytes && x[33..] == r1.bytes && y[1..33] == l2.bytes && y[33..] == r2.bytes;
    Collision(x, y)
  }

  /** Two different levels of one size under one root; i is a position where they differ. */
  function LevelCollision(h: HashFn, a: seq<Digest>, b: seq<Digest>, i: nat): (c: Collision)
    requires |a| == |b| && i < |a|
    requires Fold(h, a) == Fold(h, b)
    requires a[i] != b[i]
    ensures IsCollision(h, c)
    decreases |a|
  {
    var j := i / 2;
    var up, vp := PairUp(h, a), PairUp(h, b);
    PairUpAt(h, a, j);
    PairUpAt(h, b, j);
    if up[j] != vp[j] then
      LevelCollision(h, up, vp, j)
    else
      NodeCollision(h, a[2 * j], a[2 * j + 1], b[2 * j], b[2 * j + 1])
  }

  function LeafCollision(h: HashFn, a: Bytes, b: Bytes): (c: Collision)
    requires LeafHash(h, a) == LeafHash(h, b)
    requires a != b
    ensures IsCollision(h, c)
  {
    assert ([0] + a)[1..] == a && ([0] + b)[1..] == b;
    Collision([0] + a, [0] + b)
  }

  /** The first position at which two sequences of one length differ. */
  function FirstDifference<T(==)>(a: seq<T>, b: seq<T>): (i: nat)
    requires |a| == |b| && a != b
    ensures i < |a| && a[i] != b[i] && a[..i] == b[..i]
  {
    if a[0] != b[0] then 0
    else
      assert a == [a[0]] + a[1..] && b == [b[0]] + b[1..];
      var i := FirstDifference(a[1..], b[1..]);
      assert a[..i + 1] == [a[0]] + a[1..][..i] && b[..i + 1] == [b[0]] + b[1..][..i];
      i + 1
  }

  /** Two different exports of one size under one root. */
  predicate SameRoot(h: HashFn, a: seq<Bytes>, b: seq<Bytes>) {
    |a| == |b| && a != b && TreeHash(h, a) == TreeHash(h, b)
  }

  /** Such exports yield a SHA-256 collision. */
  function RootCollision(h: HashFn, a: seq<Bytes>, b: seq<Bytes>): (c: Collision)
    requires SameRoot(h, a, b)
    ensures IsCollision(h, c)
  {
    TreeHashIsFold(h, a);
    TreeHashIsFold(h, b);
    var i := FirstDifference(a, b);
    if LeafHash(h, a[i]) == LeafHash(h, b[i]) then
      LeafCollision(h, a[i], b[i])
    else
      LevelCollision(h, Leaves(h, a), Leaves(h, b), i)
  }
}
