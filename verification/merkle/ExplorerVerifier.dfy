/** verifyInclusionProof of the browser explorer, and when it agrees with the stand-alone verifier. */
module ExplorerVerifier {
  import opened Options
  import opened Bytes
  import opened Binary
  import opened MerkleTree
  import opened AuditPath
  import opened InclusionArtifact

  // ---- positions in JavaScript numbers ----

  /** Up to this size every integer is a JavaScript number. */
  const EXACT := 0x20_0000_0000_0000

  /**
   * x + 1 for an integer x that is a JavaScript number: exact up to 2^53, then rounded to the nearest, ties to even.
   */
  function PlusOne(x: nat): nat {
    if x < EXACT then x + 1
    else if x < 2 * EXACT && x / 2 % 2 == 1 then x + 2
    else x
  }

  /** The browser's expected_proof_directions. */
  function BrowserDirections(size: nat, index: nat): seq<Side>
    decreases size
  {
    if size <= 1 then []
    else
      (if index % 2 == 1 then [Left] else if PlusOne(index) < size then [Right] else [])
      + BrowserDirections(PlusOne(size) / 2, index / 2)
  }

  /** expected_proof_directions of the explorer, for integer arguments; None is the exception. */
  method ExpectedDirections(treeSize: int, leafIndex: int) returns (r: Option<seq<Side>>)
    ensures r == if 0 <= leafIndex < treeSize then Some(BrowserDirections(treeSize, leafIndex)) else None
  {
    if treeSize < 1 || leafIndex < 0 || leafIndex >= treeSize {
      return None;
    }
    var directions: seq<Side> := [];
    var currentIndex: nat, levelSize: nat := leafIndex, treeSize;
    while levelSize > 1
      invariant directions + BrowserDirections(levelSize, currentIndex) == BrowserDirections(treeSize, leafIndex)
      decreases levelSize
    {
      BrowserDirectionsAfter(directions, levelSize, currentIndex);
      if currentIndex % 2 == 0 {
        if PlusOne(currentIndex) < levelSize {
          directions := directions + [Right];
        }
      } else {
        directions := directions + [Left];
      }
      currentIndex, levelSize := currentIndex / 2, PlusOne(levelSize) / 2;
    }
    AppendNothing(directions);
    return Some(directions);
  }

  function BrowserSide(size: nat, index: nat): seq<Side> {
    if index % 2 == 1 then [Left] else if PlusOne(index) < size then [Right] else []
  }

  lemma BrowserDirectionsOnce(size: nat, index: nat)
    requires size > 1
    ensures BrowserDirections(size, index) == BrowserSide(size, index) + BrowserDirections(PlusOne(size) / 2, index / 2)
  {
  }

  lemma BrowserDirectionsAfter(done: seq<Side>, size: nat, index: nat)
    requires size > 1
    ensures done + BrowserSide(size, index) + BrowserDirections(PlusOne(size) / 2, index / 2)
      == done + BrowserDirections(size, index)
  {
    hide BrowserDirections, BrowserSide, PlusOne;
    BrowserDirectionsOnce(size, index);
    Assoc(done, BrowserSide(size, index), BrowserDirections(PlusOne(size) / 2, index / 2));
  }

  lemma ExactStep(size: nat, index: nat)
    requires index < size <= EXACT
    ensures PlusOne(size) / 2 == (size + 1) / 2 && BrowserSide(size, index) == SiblingSide(size, index)
  {
  }

  /** Up to 2^53 lines the browser's positions are the tree's. */
  lemma {:induction false} BrowserPositions(size: nat, index: nat)
    requires index < size <= EXACT
    ensures BrowserDirections(size, index) == Directions(size, index)
    decreases size
  {
    hide BrowserSide, SiblingSide, PlusOne;
    if size > 1 {
      ExactStep(size, index);
      BrowserDirectionsOnce(size, index);
      BrowserPositions((size + 1) / 2, index / 2);
    }
  }

  /** The last leaf of a tree with one leaf more than a power of two hangs just below the root. */
  lemma {:induction false} LastLeaf(k: nat)
    ensures Directions(Pow2(k) + 1, Pow2(k)) == [Left]
  {
    hide Directions;
    var m := Pow2(k);
    DirectionsOnce(m + 1, m);
    if k == 0 {
      OneLeaf();
    } else {
      LastLeaf(k - 1);
      assert SiblingSide(m + 1, m) == [];
    }
  }

  lemma OneLeaf()
    ensures Directions(1, 0) == []
  {
  }

  lemma BigPowers()
    ensures Pow2(51) == 0x8_0000_0000_0000 && Pow2(52) == 0x10_0000_0000_0000
  {
    hide Pow2;
    Eight();
    PowersMultiply(3, 3);
    PowersMultiply(6, 6);
    PowersMultiply(12, 12);
    PowersMultiply(24, 24);
    PowersMultiply(48, 3);
    PowersMultiply(1, 51);
  }

  lemma Eight()
    ensures Pow2(1) == 2 && Pow2(3) == 8
  {
  }

  /**
   * Beyond that bound they are not: at 2^53 + 2 lines the leaf 2^53 has two positions, and the browser expects three.
   */
  lemma {:induction false} PositionsDisagree()
    ensures Directions(EXACT + 2, EXACT) == [Right, Left]
    ensures BrowserDirections(EXACT + 2, EXACT) == [Right, Right, Left]
  {
    hide Directions, BrowserDirections;
    BigPowers();
    var half, quarter := EXACT / 2, EXACT / 4;
    LastLeaf(52);
    LastLeaf(51);
    DirectionsOnce(EXACT + 2, EXACT);
    assert Directions(EXACT + 2, EXACT) == [Right] + Directions(half + 1, half);
    BrowserPositions(half + 2, half);
    DirectionsOnce(half + 2, half);
    assert Directions(half + 2, half) == [Right] + Directions(quarter + 1, quarter);
    BrowserDirectionsOnce(EXACT + 2, EXACT);
    assert BrowserDirections(EXACT + 2, EXACT) == [Right] + BrowserDirections(half + 2, half);
    assert [Right] + ([Right] + [Left]) == [Right, Right, Left];
  }

  /** The integers that are JavaScript numbers: up to 2^53 all of them, beyond that the doubles of such numbers. */
  predicate IsJs(x: nat) {
    x <= EXACT || (x % 2 == 0 && IsJs(x / 2))
  }

  /** The browser expects of every leaf it can name what the tree gives. */
  predicate PositionsAgree(size: nat) {
    forall index: nat :: index < size && IsJs(index) ==> BrowserDirections(size, index) == Directions(size, index)
  }

  /** Of every size that is a JavaScript number: all positions agree if and only if the size is at most 2^53. */
  lemma {:induction false} PositionsAgreeUpToExact(size: nat)
    requires IsJs(size)
    ensures PositionsAgree(size) <==> size <= EXACT
  {
    hide BrowserDirections, Directions, IsJs;
    if size <= EXACT {
      forall index: nat | index < size
        ensures BrowserDirections(size, index) == Directions(size, index)
      {
        BrowserPositions(size, index);
      }
    } else {
      var index := WrongLeaf(size);
    }
  }

  /** A leaf on which they disagree; above 2^54 the double of such a leaf of half the size. */
  lemma {:induction false} WrongLeaf(size: nat) returns (index: nat)
    requires IsJs(size) && size > EXACT
    ensures index < size && IsJs(index) && BrowserDirections(size, index) != Directions(size, index)
    decreases size
  {
    hide BrowserDirections, Directions;
    if size <= 2 * EXACT {
      index := size - 2;
      JustAbove(size);
    } else {
      var half := WrongLeaf(size / 2);
      index := 2 * half;
      DoubledLeaf(size, half);
      assert BrowserDirections(size, index)[1..] == BrowserDirections(size / 2, half);
      assert Directions(size, index)[1..] == Directions(size / 2, half);
    }
  }

  /** Of the sizes up to 2^54 the last leaf but one. */
  lemma {:induction false} JustAbove(size: nat)
    requires EXACT < size <= 2 * EXACT && size % 2 == 0
    ensures IsJs(size - 2) && BrowserDirections(size, size - 2) != Directions(size, size - 2)
  {
    hide BrowserDirections, Directions;
    var m := size / 2;
    DirectionsOnce(size, size - 2);
    BrowserDirectionsOnce(size, size - 2);
    assert Directions(size, size - 2) == [Right] + Directions(m, m - 1);
    if m % 2 == 0 {
      assert BrowserSide(size, size - 2) == [];
      BrowserPositions(m, m - 1);
      assert |BrowserDirections(size, size - 2)| == |Directions(m, m - 1)|;
    } else {
      assert BrowserSide(size, size - 2) == [Right] && PlusOne(size) / 2 == m + 1;
      BrowserPositions(m + 1, m - 1);
      DirectionsOnce(m + 1, m - 1);
      DirectionsOnce(m, m - 1);
      assert |Directions(m + 1, m - 1)| == 1 + |Directions(m, m - 1)|;
    }
  }

  lemma {:induction false} DoubledLeaf(size: nat, half: nat)
    requires size > 2 * EXACT && size % 2 == 0 && IsJs(size / 2) && half < size / 2 && IsJs(half)
    ensures IsJs(2 * half)
    ensures BrowserDirections(size, 2 * half) == [Right] + BrowserDirections(size / 2, half)
    ensures Directions(size, 2 * half) == [Right] + Directions(size / 2, half)
  {
    hide BrowserDirections, Directions;
    DirectionsOnce(size, 2 * half);
    BrowserDirectionsOnce(size, 2 * half);
    assert size / 2 % 2 == 0;
  }

  // ---- the verdict ----

  /** The root to check against: the trusted one, else the artifact's expectation, else its own root. */
  function ChosenRoot(a: Artifact, expected: Field<Bytes>, trusted: Option<Bytes>): Field<Bytes> {
    if trusted.Some? then Is(trusted.value)
    else if expected != Absent then expected
    else a.exportRoot
  }

  /** The meaning of the browser's verdict; hex text is already decoded, and an empty text is Absent. */
  predicate AcceptsInBrowser(h: HashFn, line: Bytes, a: Artifact, expected: Field<Bytes>, trusted: Option<Bytes>) {
    var root := ChosenRoot(a, expected, trusted);
    && root.Is? && |root.value| == 32
    && (trusted.Some? ==> expected == Absent || expected == Is(trusted.value))
    && a.leafIndex.Is? && a.treeSize.Is? && 0 <= a.leafIndex.value < a.treeSize.value
    && a.leafHash.Is? && a.leafHash.value == LeafHash(h, line).bytes
    && a.auditPath.Is? && (forall item <- a.auditPath.value :: GoodItem(item))
    && Sides(ItemSteps(a.auditPath.value)) == BrowserDirections(a.treeSize.value, a.leafIndex.value)
    && Climb(h, LeafHash(h, line), ItemSteps(a.auditPath.value)).bytes == root.value
  }

  /** verifyInclusionProof: geometry and format are checked while the path is folded. */
  method VerifyInclusionProof(h: HashFn, line: Bytes, a: Artifact, expected: Field<Bytes>, trusted: Option<Bytes>)
    returns (ok: bool)
    ensures ok == AcceptsInBrowser(h, line, a, expected, trusted)
  {
    hide LeafHash, NodeHash, BrowserDirections, Climb, Sides, ItemSteps;
    var root := ChosenRoot(a, expected, trusted);
    if !root.Is? || |root.value| != 32 {
      return false;
    }
    if trusted.Some? && expected != Absent && expected != Is(trusted.value) {
      return false;
    }
    if !a.leafHash.Is? || |a.leafHash.value| != 32 || !a.leafIndex.Is? || !a.treeSize.Is? || a.treeSize.value < 1 {
      return false;
    }
    if a.leafIndex.value < 0 || a.leafIndex.value >= a.treeSize.value || !a.auditPath.Is? {
      return false;
    }
    var leaf := LeafHash(h, line);
    if leaf.bytes != a.leafHash.value {
      return false;
    }
    var dirs := ExpectedDirections(a.treeSize.value, a.leafIndex.value);
    var items := a.auditPath.value;
    if |items| != |dirs.value| {
      return false;
    }
    var current := leaf;
    for i := 0 to |items|
      invariant forall k :: 0 <= k < i ==> GoodItem(items[k]) && ItemStep(items[k]).side == dirs.value[k]
      invariant (forall item <- items :: GoodItem(item)) ==>
        Climb(h, current, ItemSteps(items)[i..]) == Climb(h, leaf, ItemSteps(items))
    {
      var step := items[i];
      ClimbOnce(h, current, items, i);
      if !step.PathItem? || step.position != Is(SideName(dirs.value[i])) {
        WrongItem(items, dirs.value, i);
        return false;
      }
      if !step.siblingHash.Is? || |step.siblingHash.value| != 32 {
        assert !GoodItem(items[i]);
        return false;
      }
      if step.position == Is("left") {
        current := NodeHash(h, Digest(step.siblingHash.value), current);
      } else {
        current := NodeHash(h, current, Digest(step.siblingHash.value));
      }
    }
    ClimbEnds(h, current, items, dirs.value);
    return current.bytes == root.value;
  }

  lemma ClimbOnce(h: HashFn, current: Digest, items: seq<PathItem>, i: nat)
    requires i < |items|
    ensures (forall item <- items :: GoodItem(item)) ==>
      Climb(h, current, ItemSteps(items)[i..])
        == Climb(h, Join(h, current, ItemStep(items[i])), ItemSteps(items)[i + 1..])
  {
    if forall item <- items :: GoodItem(item) {
      assert ItemSteps(items)[i..] == [ItemStep(items[i])] + ItemSteps(items)[i + 1..];
      ClimbCons(h, current, ItemStep(items[i]), ItemSteps(items)[i + 1..]);
    }
  }

  lemma ClimbEnds(h: HashFn, current: Digest, items: seq<PathItem>, dirs: seq<Side>)
    requires |items| == |dirs|
    requires forall k :: 0 <= k < |items| ==> GoodItem(items[k]) && ItemStep(items[k]).side == dirs[k]
    ensures Sides(ItemSteps(items)) == dirs && Climb(h, current, ItemSteps(items)[|items|..]) == current
  {
  }

  /**
   * On an artifact with a good header and up to 2^53 lines the two verifiers agree when the browser checks the
   * artifact's own root; against any other root at most one of them accepts.
   */
  lemma BrowserAgrees(h: HashFn, line: Bytes, a: Artifact, expected: Field<Bytes>, trusted: Option<Bytes>,
      want: Expected)
    requires HeaderHolds(a, want) && want.root == Absent && a.treeSize.value <= EXACT
    ensures
      (ChosenRoot(a, expected, trusted) == a.exportRoot
       && (trusted.Some? ==> expected == Absent || expected == a.exportRoot)) ==>
      (AcceptsInBrowser(h, line, a, expected, trusted) <==> AcceptsInclusion(h, line, a, want))
    ensures ChosenRoot(a, expected, trusted) != a.exportRoot ==>
      !(AcceptsInBrowser(h, line, a, expected, trusted) && AcceptsInclusion(h, line, a, want))
  {
    hide LeafHash, Climb, Directions, BrowserDirections, Sides, ItemSteps;
    BrowserPositions(a.treeSize.value, a.leafIndex.value);
  }

  /** Up to 2^53 lines the built artifact is accepted unless another root is trusted or expected. */
  lemma {:induction false} BuiltInBrowser(h: HashFn, lines: seq<Bytes>, room: string, index: nat, generation: nat,
      expected: Field<Bytes>, trusted: Option<Bytes>)
    requires index < |lines| <= EXACT
    ensures var root: Bytes := TreeHash(h, lines).bytes;
      AcceptsInBrowser(h, lines[index], BuildArtifact(h, lines, room, index, generation), expected, trusted)
      <==> expected in {Absent, Is(root)} && trusted in {None, Some(root)}
  {
    hide Path, Climb, TreeHash, Directions, BrowserDirections, Fold, Leaves, Sides, ItemSteps, WriteSteps, LeafHash;
    var level := Leaves(h, lines);
    PathHasDirections(h, level, index);
    PathReachesRoot(h, level, index);
    TreeHashIsFold(h, lines);
    WriteThenRead(Path(h, level, index));
    BrowserPositions(|lines|, index);
  }

  /** An acceptance with a trusted root of an export of the stated size, for another line than the one at the index. */
  predicate MisplacedInBrowser(h: HashFn, line: Bytes, a: Artifact, lines: seq<Bytes>) {
    && AcceptsInBrowser(h, line, a, Absent, Some(TreeHash(h, lines).bytes))
    && a.treeSize.value == |lines| <= EXACT && line != lines[a.leafIndex.value]
  }

  function BrowserCollision(h: HashFn, line: Bytes, a: Artifact, lines: seq<Bytes>): (c: Collision)
    requires MisplacedInBrowser(h, line, a, lines)
    ensures IsCollision(h, c)
  {
    hide Path, Climb, TreeHash, Directions, Fold, Sides;
    TreeHashIsFold(h, lines);
    BrowserPositions(|lines|, a.leafIndex.value);
    var i := a.leafIndex.value;
    if LeafHash(h, line) == LeafHash(h, lines[i]) then LeafCollision(h, line, lines[i])
    else PathCollision(h, Leaves(h, lines), i, LeafHash(h, line), ItemSteps(a.auditPath.value))
  }
}
