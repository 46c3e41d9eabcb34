/** Inclusion: audit paths, their directions, and what an accepted path proves. */
module AuditPath {
  import opened Bytes
  import opened Binary
  import opened MerkleTree

  /** On which side of the running hash the sibling stands. */
  datatype Side = Left | Right

  datatype Step = Step(sibling: Digest, side: Side)

  function Join(h: HashFn, current: Digest, step: Step): Digest {
    if step.side == Left then NodeHash(h, step.sibling, current) else NodeHash(h, current, step.sibling)
  }

  /** The hash a proof claims for the root. */
  function Climb(h: HashFn, current: Digest, proof: seq<Step>): Digest
    decreases |proof|
  {
    if proof == [] then current else Climb(h, Join(h, current, proof[0]), proof[1..])
  }

  /** The step that node i contributes at one level: its sibling, unless it is an odd last node. */
  function Sibling(level: seq<Digest>, i: nat): seq<Step>
    requires i < |level|
  {
    if i % 2 == 1 then [Step(level[i - 1], Left)]
    else if i + 1 < |level| then [Step(level[i + 1], Right)]
    else []
  }

  /** The audit path of node i, level by level from the bottom. */
  function Path(h: HashFn, level: seq<Digest>, i: nat): seq<Step>
    requires i < |level|
    decreases |level|
  {
    if |level| == 1 then [] else Sibling(level, i) + Path(h, PairUp(h, level), i / 2)
  }

  function SiblingSide(size: nat, i: nat): seq<Side>
    requires i < size
  {
    if i % 2 == 1 then [Left] else if i + 1 < size then [Right] else []
  }

  /** The sides of an audit path, from the tree size alone. */
  function Directions(size: nat, i: nat): seq<Side>
    requires i < size
    decreases size
  {
    if size == 1 then [] else SiblingSide(size, i) + Directions((size + 1) / 2, i / 2)
  }

  function Sides(proof: seq<Step>): (sides: seq<Side>)
    ensures |sides| == |proof|
    ensures forall j :: 0 <= j < |proof| ==> sides[j] == proof[j].side
  {
    seq(|proof|, j requires 0 <= j < |proof| => proof[j].side)
  }

  lemma Assoc<T>(a: seq<T>, b: seq<T>, c: seq<T>)
    ensures a + (b + c) == (a + b) + c
  {
  }

  lemma AddNothing<T>(a: seq<T>)
    ensures [] + a == a
  {
  }

  lemma AppendNothing<T>(a: seq<T>)
    ensures a + [] == a
  {
  }

  lemma SidesConcat(a: seq<Step>, b: seq<Step>)
    ensures Sides(a + b) == Sides(a) + Sides(b)
  {
  }

  /** The generated path has exactly the directions the verifier expects. */
  lemma {:induction false} PathHasDirections(h: HashFn, level: seq<Digest>, i: nat)
    requires i < |level|
    ensures Sides(Path(h, level, i)) == Directions(|level|, i)
    decreases |level|
  {
    if |level| > 1 {
      PathHasDirections(h, PairUp(h, level), i / 2);
      SidesConcat(Sibling(level, i), Path(h, PairUp(h, level), i / 2));
      assert Sides(Sibling(level, i)) == SiblingSide(|level|, i);
    }
  }

  lemma ClimbCons(h: HashFn, current: Digest, step: Step, rest: seq<Step>)
    ensures Climb(h, current, [step] + rest) == Climb(h, Join(h, current, step), rest)
  {
    assert ([step] + rest)[1..] == rest;
  }

  /** Joining a node with its sibling gives the node above; an odd last node is its own parent. */
  lemma SiblingMakesParent(h: HashFn, level: seq<Digest>, i: nat)
    requires i < |level|
    ensures var s := Sibling(level, i);
      PairUp(h, level)[i / 2] == if s == [] then level[i] else Join(h, level[i], s[0])
    ensures |Sibling(level, i)| <= 1
    ensures Sides(Sibling(level, i)) == SiblingSide(|level|, i)
  {
    hide PairUp, NodeHash;
    PairUpAt(h, level, i / 2);
  }

  /** Completeness: the path of node i folds back to the root. */
  lemma {:induction false} PathReachesRoot(h: HashFn, level: seq<Digest>, i: nat)
    requires i < |level|
    ensures Climb(h, level[i], Path(h, level, i)) == Fold(h, level)
    decreases |level|
  {
    if |level| > 1 {
      var next, s := PairUp(h, level), Sibling(level, i);
      PathReachesRoot(h, next, i / 2);
      SiblingMakesParent(h, level, i);
      if s == [] {
        assert Path(h, level, i) == Path(h, next, i / 2);
      } else {
        assert s == [s[0]];
        ClimbCons(h, level[i], s[0], Path(h, next, i / 2));
      }
    }
  }

  /** A step on the expected side that joins to the parent is the sibling, and the running hash is the node itself. */
  function StepCollision(h: HashFn, level: seq<Digest>, i: nat, current: Digest, step: Step): (c: Collision)
    requires i < |level| && Sibling(level, i) != []
    requires step.side == Sibling(level, i)[0].side
    requires Join(h, current, step) == PairUp(h, level)[i / 2]
    requires current != level[i] || [step] != Sibling(level, i)
    ensures IsCollision(h, c)
  {
    SiblingMakesParent(h, level, i);
    if i % 2 == 1 then
      NodeCollision(h, step.sibling, current, level[i - 1], level[i])
    else
      NodeCollision(h, current, step.sibling, level[i], level[i + 1])
  }

  /**
   * A path with the directions of leaf i that folds to the root, and yet starts elsewhere or is not the generated
   * one.
   */
  predicate Misleads(h: HashFn, level: seq<Digest>, i: nat, leaf: Digest, proof: seq<Step>)
    requires i < |level|
  {
    && Sides(proof) == Directions(|level|, i)
    && Climb(h, leaf, proof) == Fold(h, level)
    && (leaf != level[i] || proof != Path(h, level, i))
  }

  /** Soundness with position: from a misleading path the collision is computed. */
  function PathCollision(h: HashFn, level: seq<Digest>, i: nat, leaf: Digest, proof: seq<Step>): (c: Collision)
    requires i < |level| && Misleads(h, level, i, leaf, proof)
    ensures IsCollision(h, c)
    decreases |level|
  {
    hide *;
    MisleadsAbove(h, level, i, leaf, proof);
    var next := PairUp(h, level);
    if Sibling(level, i) == [] then
      PathCollision(h, next, i / 2, leaf, proof)
    else
      var up := Join(h, leaf, proof[0]);
      if up != next[i / 2] || proof[1..] != Path(h, next, i / 2) then
        PathCollision(h, next, i / 2, up, proof[1..])
      else
        StepCollision(h, level, i, leaf, proof[0])
  }

  /** A misleading path misleads one level up, unless its first step does. */
  lemma MisleadsAbove(h: HashFn, level: seq<Digest>, i: nat, leaf: Digest, proof: seq<Step>)
    requires i < |level| && Misleads(h, level, i, leaf, proof)
    ensures |level| > 1
    ensures Sibling(level, i) == [] ==> Misleads(h, PairUp(h, level), i / 2, leaf, proof)
    ensures Sibling(level, i) != [] ==>
      && proof != [] && proof[0].side == Sibling(level, i)[0].side
      && var next, up := PairUp(h, level), Join(h, leaf, proof[0]);
        if up != next[i / 2] || proof[1..] != Path(h, next, i / 2) then Misleads(h, next, i / 2, up, proof[1..])
        else leaf != level[i] || [proof[0]] != Sibling(level, i)
  {
    hide Sides, Directions, Climb, Fold, Path, SiblingSide, PairUp, Join;
    OneLeafPath(h, level, i, leaf, proof);
    var next := PairUp(h, level);
    SiblingMakesParent(h, level, i);
    PathOnce(h, level, i);
    FoldOnce(h, level);
    if Sibling(level, i) == [] {
      DirectionsOnce(|level|, i);
      AddNothing(Path(h, next, i / 2));
      AddNothing(Directions(|next|, i / 2));
    } else {
      FirstSide(|level|, i, proof);
      assert proof == [proof[0]] + proof[1..];
      ClimbCons(h, leaf, proof[0], proof[1..]);
    }
  }

  /** In a tree of one leaf only the empty path has the right shape, and it folds to the leaf. */
  lemma OneLeafPath(h: HashFn, level: seq<Digest>, i: nat, leaf: Digest, proof: seq<Step>)
    requires i < |level|
    requires Sides(proof) == Directions(|level|, i)
    requires Climb(h, leaf, proof) == Fold(h, level)
    ensures |level| == 1 ==> leaf == level[i] && proof == Path(h, level, i)
  {
    if |level| == 1 {
      assert |Sides(proof)| == 0;
    }
  }

  lemma FirstSide(size: nat, i: nat, proof: seq<Step>)
    requires i < size && Sides(proof) == Directions(size, i)
    requires SiblingSide(size, i) != []
    ensures proof != [] && [proof[0].side] == SiblingSide(size, i)
    ensures Sides(proof[1..]) == Directions((size + 1) / 2, i / 2)
  {
    DirectionsOnce(size, i);
    var above := Directions((size + 1) / 2, i / 2);
    assert |Sides(proof)| == |SiblingSide(size, i)| + |above|;
    assert proof[0].side == Sides(proof)[0];
    assert Sides(proof[1..]) == Sides(proof)[1..];
  }

  // ---- the same path read from the root down, as PATH(m, D[n]) in section 2.1.1 of RFC 6962 ----

  lemma SiblingInSlices(level: seq<Digest>, i: nat, j: nat)
    requires i < |level| && 2 * j <= |level|
    ensures i < 2 * j ==> Sibling(level, i) == Sibling(level[..2 * j], i)
    ensures i >= 2 * j ==> Sibling(level, i) == Sibling(level[2 * j..], i - 2 * j)
  {
    if i >= 2 * j {
      var rest := level[2 * j..];
      EvenShift(i, j);
      assert i % 2 == 1 ==> rest[i - 2 * j - 1] == level[i - 1];
      assert i + 1 < |level| ==> rest[i - 2 * j + 1] == level[i + 1];
    }
  }

  lemma SiblingSideInSlices(size: nat, i: nat, j: nat)
    requires i < size && 2 * j <= size
    ensures i < 2 * j ==> SiblingSide(size, i) == SiblingSide(2 * j, i)
    ensures i >= 2 * j ==> SiblingSide(size, i) == SiblingSide(size - 2 * j, i - 2 * j)
  {
  }

  /** The unfolding of Path also holds at the root, where the sibling is missing. */
  lemma PathOnce(h: HashFn, level: seq<Digest>, i: nat)
    requires i < |level|
    ensures Path(h, level, i) == Sibling(level, i) + Path(h, PairUp(h, level), i / 2)
  {
    if |level| == 1 {
      assert PairUp(h, level) == level;
    }
  }

  lemma DirectionsOnce(size: nat, i: nat)
    requires i < size
    ensures Directions(size, i) == SiblingSide(size, i) + Directions((size + 1) / 2, i / 2)
  {
  }

  lemma PathAfter(h: HashFn, done: seq<Step>, level: seq<Digest>, i: nat)
    requires i < |level|
    ensures i / 2 < |PairUp(h, level)|
    ensures var above := Path(h, PairUp(h, level), i / 2);
      done + Path(h, level, i) ==
        (if i % 2 == 1 then done + [Step(level[i - 1], Left)]
         else if i + 1 < |level| then done + [Step(level[i + 1], Right)]
         else done) + above
  {
    hide Path, PairUp, NodeHash;
    PathOnce(h, level, i);
    Assoc(done, Sibling(level, i), Path(h, PairUp(h, level), i / 2));
    AppendNothing(done);
  }

  lemma DirectionsAfter(done: seq<Side>, size: nat, i: nat)
    requires i < size
    ensures i / 2 < (size + 1) / 2
    ensures var above := Directions((size + 1) / 2, i / 2);
      done + Directions(size, i) ==
        (if i % 2 == 1 then done + [Left] else if i + 1 < size then done + [Right] else done) + above
  {
    hide Directions, NodeHash;
    DirectionsOnce(size, i);
    Assoc(done, SiblingSide(size, i), Directions((size + 1) / 2, i / 2));
    AppendNothing(done);
  }

  /** If the path one level up crosses `last` just below the root, so does the path here. */
  lemma {:induction false} PathStepLeft(h: HashFn, level: seq<Digest>, i: nat, j: nat, last: seq<Step>)
    requires i < 2 * j <= |level|
    requires Path(h, PairUp(h, level), i / 2) == Path(h, PairUp(h, level)[..j], i / 2) + last
    ensures Path(h, level, i) == Path(h, level[..2 * j], i) + last
  {
    hide Path, PairUp, Sibling, NodeHash;
    PairUpSlices(h, level, j);
    PathOnce(h, level, i);
    PathOnce(h, level[..2 * j], i);
    SiblingInSlices(level, i, j);
    Assoc(Sibling(level, i), Path(h, PairUp(h, level)[..j], i / 2), last);
  }

  lemma {:induction false} PathStepRight(h: HashFn, level: seq<Digest>, i: nat, j: nat, last: seq<Step>)
    requires 2 * j <= i < |level|
    requires Path(h, PairUp(h, level), i / 2) == Path(h, PairUp(h, level)[j..], i / 2 - j) + last
    ensures Path(h, level, i) == Path(h, level[2 * j..], i - 2 * j) + last
  {
    hide Path, PairUp, Sibling, NodeHash;
    EvenShift(i, j);
    PairUpSlices(h, level, j);
    PathOnce(h, level, i);
    PathOnce(h, level[2 * j..], i - 2 * j);
    SiblingInSlices(level, i, j);
    Assoc(Sibling(level, i), Path(h, PairUp(h, level)[j..], i / 2 - j), last);
  }

  lemma {:induction false} PathInLeftSubtree(h: HashFn, level: seq<Digest>, i: nat)
    requires |level| > 1 && i < Split(|level|)
    ensures var k := Split(|level|);
      Path(h, level, i) == Path(h, level[..k], i) + [Step(Fold(h, level[k..]), Right)]
    decreases |level|
  {
    hide Path, PairUp, Fold, NodeHash;
    if |level| == 2 {
      PathOfTwo(h, level);
    } else {
      var next := PairUp(h, level);
      var j := Split(|next|);
      PathInLeftSubtree(h, next, i / 2);
      PairUpSlices(h, level, j);
      FoldOnce(h, level[2 * j..]);
      PathStepLeft(h, level, i, j, [Step(Fold(h, level[2 * j..]), Right)]);
    }
  }

  lemma {:induction false} PathInRightSubtree(h: HashFn, level: seq<Digest>, i: nat)
    requires |level| > 1 && Split(|level|) <= i < |level|
    ensures var k := Split(|level|);
      Path(h, level, i) == Path(h, level[k..], i - k) + [Step(Fold(h, level[..k]), Left)]
    decreases |level|
  {
    hide Path, PairUp, Fold, NodeHash;
    if |level| == 2 {
      PathOfTwo(h, level);
    } else {
      var next := PairUp(h, level);
      var j := Split(|next|);
      PathInRightSubtree(h, next, i / 2);
      PairUpSlices(h, level, j);
      FoldOnce(h, level[..2 * j]);
      PathStepRight(h, level, i, j, [Step(Fold(h, level[..2 * j]), Left)]);
    }
  }

  lemma PathOfTwo(h: HashFn, level: seq<Digest>)
    requires |level| == 2
    ensures Path(h, level, 0) == Path(h, level[..1], 0) + [Step(Fold(h, level[1..]), Right)]
    ensures Path(h, level, 1) == Path(h, level[1..], 0) + [Step(Fold(h, level[..1]), Left)]
  {
    PairUpAt(h, level, 0);
    assert Path(h, level, 0) == [Step(level[1], Right)];
    assert Path(h, level, 1) == [Step(level[0], Left)];
  }

  lemma {:induction false} DirectionsInLeftSubtree(size: nat, i: nat)
    requires size > 1 && i < Split(size)
    ensures Directions(size, i) == Directions(Split(size), i) + [Right]
    decreases size
  {
    hide Directions, SiblingSide, NodeHash;
    DirectionsOnce(size, i);
    if size == 2 {
      DirectionsOfTwo();
    } else {
      var half := (size + 1) / 2;
      var j := Split(half);
      DirectionsOnce(2 * j, i);
      DirectionsInLeftSubtree(half, i / 2);
      SiblingSideInSlices(size, i, j);
      Assoc(SiblingSide(size, i), Directions(j, i / 2), [Right]);
    }
  }

  lemma {:induction false} DirectionsInRightSubtree(size: nat, i: nat)
    requires size > 1 && Split(size) <= i < size
    ensures Directions(size, i) == Directions(size - Split(size), i - Split(size)) + [Left]
    decreases size
  {
    hide Directions, SiblingSide, NodeHash;
    if size == 2 {
      DirectionsOfTwo();
    } else {
      var half, q := (size + 1) / 2, i / 2;
      var j := Split(half);
      DirectionsShifted(size, i, j);
      DirectionsInRightSubtree(half, q);
      DirectionsOnce(size, i);
      Assoc(SiblingSide(size, i), Directions(half - j, q - j), [Left]);
    }
  }

  lemma DirectionsOfTwo()
    ensures Directions(1, 0) == []
    ensures Directions(2, 0) == [] + [Right]
    ensures Directions(2, 1) == [] + [Left]
  {
  }

  lemma DirectionsShifted(size: nat, i: nat, j: nat)
    requires 2 * j <= i < size
    ensures Directions(size - 2 * j, i - 2 * j) == SiblingSide(size, i) + Directions((size + 1) / 2 - j, i / 2 - j)
  {
    hide Directions, SiblingSide, NodeHash;
    EvenShift(i, j);
    EvenShift(size + 1, j);
    DirectionsOnce(size - 2 * j, i - 2 * j);
    SiblingSideInSlices(size, i, j);
  }

  ghost predicate IsSuffix(a: seq<Side>, b: seq<Side>) {
    |a| <= |b| && b[|b| - |a|..] == a
  }

  lemma SuffixInit(a: seq<Side>, b: seq<Side>, x: Side, y: Side)
    requires IsSuffix(a + [x], b + [y])
    ensures x == y && IsSuffix(a, b)
  {
    var ax, bs := a + [x], b + [y];
    assert bs[|bs| - |ax|..][|a|] == x;
    forall t | 0 <= t < |a| ensures b[|b| - |a|..][t] == a[t] {
      assert bs[|bs| - |ax|..][t] == ax[t];
    }
  }

  /** Read from the root, the directions of distinct leaves form a prefix-free code: position is never ambiguous. */
  lemma {:induction false} DirectionsPrefixFree(size: nat, i: nat, j: nat)
    requires i < size && j < size && i != j
    ensures !IsSuffix(Directions(size, i), Directions(size, j))
    decreases size
  {
    var k := Split(size);
    if IsSuffix(Directions(size, i), Directions(size, j)) {
      var a, x := SplitLast(size, i);
      var b, y := SplitLast(size, j);
      SuffixInit(a, b, x, y);
      if i < k {
        DirectionsPrefixFree(k, i, j);
      } else {
        DirectionsPrefixFree(size - k, i - k, j - k);
      }
    }
  }

  /** The step nearest the root, and the directions inside the subtree below it. */
  lemma SplitLast(size: nat, i: nat) returns (init: seq<Side>, last: Side)
    requires i < size && size > 1
    ensures Directions(size, i) == init + [last]
    ensures var k := Split(size);
      if i < k then last == Right && init == Directions(k, i) else last == Left && init == Directions(size - k, i - k)
  {
    var k := Split(size);
    if i < k {
      DirectionsInLeftSubtree(size, i);
      init, last := Directions(k, i), Right;
    } else {
      DirectionsInRightSubtree(size, i);
      init, last := Directions(size - k, i - k), Left;
    }
  }

  /** No path is longer than ceil(log2 size) steps. */
  lemma {:induction false} DirectionsBound(size: nat, i: nat)
    requires i < size
    ensures |Directions(size, i)| <= BitLength(size - 1)
    decreases size
  {
    if size > 1 {
      assert (size + 1) / 2 - 1 == (size - 1) / 2;
      DirectionsBound((size + 1) / 2, i / 2);
    }
  }

  /** BitLength(size - 1) is ceil(log2 size): the least e with size <= 2^e. */
  lemma {:induction false} BitLengthIsCeilLog2(size: nat, e: nat)
    requires size > 0
    ensures size <= Pow2(e) <==> BitLength(size - 1) <= e
  {
    if e > 0 && size > 1 {
      assert (size - 1) / 2 == (size + 1) / 2 - 1;
      BitLengthIsCeilLog2((size + 1) / 2, e - 1);
    }
  }

  // ---- the loops ----

  datatype PyResult<T> = Value(value: T) | IndexError | ValueError

  /** expected_proof_directions, with its two error exits. */
  method ExpectedProofDirections(treeSize: int, leafIndex: int) returns (r: PyResult<seq<Side>>)
    ensures treeSize < 1 ==> r == ValueError
    ensures treeSize >= 1 && !(0 <= leafIndex < treeSize) ==> r == IndexError
    ensures 0 <= leafIndex < treeSize ==> r == Value(Directions(treeSize, leafIndex))
  {
    if treeSize < 1 {
      return ValueError;
    }
    if leafIndex < 0 || leafIndex >= treeSize {
      return IndexError;
    }
    var directions: seq<Side> := [];
    var currentIndex: nat, levelSize: nat := leafIndex, treeSize;
    while levelSize > 1
      invariant currentIndex < levelSize
      invariant directions + Directions(levelSize, currentIndex) == Directions(treeSize, leafIndex)
      decreases levelSize
    {
      DirectionsAfter(directions, levelSize, currentIndex);
      if currentIndex % 2 == 0 {
        if currentIndex + 1 < levelSize {
          directions := directions + [Right];
        }
      } else {
        directions := directions + [Left];
      }
      currentIndex, levelSize := currentIndex / 2, (levelSize + 1) / 2;
    }
    AppendNothing(directions);
    return Value(directions);
  }

  /** What _build_export_levels returns: the leaf level and every level above it up to the root. */
  ghost predicate IsTower(h: HashFn, lines: seq<Bytes>, levels: seq<seq<Digest>>) {
    && |levels| > 0
    && levels[0] == (if lines == [] then [h([])] else Leaves(h, lines))
    && (forall j :: 0 <= j < |levels| - 1 ==> |levels[j]| > 1 && levels[j + 1] == PairUp(h, levels[j]))
  }

  method BuildExportLevels(h: HashFn, lines: seq<Bytes>) returns (levels: seq<seq<Digest>>)
    ensures IsTower(h, lines, levels)
    ensures levels[|levels| - 1] == [TreeHash(h, lines)]
  {
    if |lines| == 0 {
      return [[h([])]];
    }
    var level := HashLines(h, lines);
    levels := [level];
    TreeHashIsFold(h, lines);
    while |level| > 1
      invariant IsTower(h, lines, levels)
      invariant |level| > 0 && level == levels[|levels| - 1]
      invariant Fold(h, level) == TreeHash(h, lines)
      decreases |level|
    {
      level := NextLevel(h, level);
      levels := levels + [level];
    }
  }

  /** export_merkle_proof: walks the stored levels and collects the audit path of the line. */
  method ExportMerkleProof(h: HashFn, lines: seq<Bytes>, index: int) returns (r: PyResult<seq<Step>>)
    ensures !(0 <= index < |lines|) ==> r == IndexError
    ensures 0 <= index < |lines| ==> r == Value(Path(h, Leaves(h, lines), index))
  {
    hide Path, PairUp, Fold, TreeHash, Leaves, NodeHash;
    if index < 0 || index >= |lines| {
      return IndexError;
    }
    var levels := BuildExportLevels(h, lines);
    var proof: seq<Step> := [];
    var currentIndex: nat := index;
    var top := |levels| - 1;
    for j := 0 to top
      invariant currentIndex < |levels[j]|
      invariant proof + Path(h, levels[j], currentIndex) == Path(h, Leaves(h, lines), index)
    {
      var level := levels[j];
      assert levels[j + 1] == PairUp(h, level);
      PathAfter(h, proof, level, currentIndex);
      if currentIndex % 2 == 0 {
        var siblingIndex := currentIndex + 1;
        if siblingIndex < |level| {
          proof := proof + [Step(level[siblingIndex], Right)];
        }
      } else {
        var siblingIndex := currentIndex - 1;
        proof := proof + [Step(level[siblingIndex], Left)];
      }
      currentIndex := currentIndex / 2;
    }
    RootPath(h, levels[top], currentIndex);
    AppendNothing(proof);
    return Value(proof);
  }

  lemma RootPath(h: HashFn, level: seq<Digest>, i: nat)
    requires i < |level| == 1
    ensures Path(h, level, i) == []
  {
  }

  /** A proof item as the verifier receives it: any byte string and any position text. */
  datatype RawStep = RawStep(sibling: Bytes, position: string)

  predicate WellFormedStep(s: RawStep) {
    |s.sibling| == 32 && s.position in ["left", "right"]
  }

  function ToStep(s: RawStep): Step
    requires WellFormedStep(s)
  {
    Step(Digest(s.sibling), if s.position == "left" then Left else Right)
  }

  function ToSteps(proof: seq<RawStep>): (steps: seq<Step>)
    requires forall s <- proof :: WellFormedStep(s)
    ensures |steps| == |proof|
    ensures forall j :: 0 <= j < |proof| ==> steps[j] == ToStep(proof[j])
  {
    seq(|proof|, j requires 0 <= j < |proof| => ToStep(proof[j]))
  }

  /** verify_export_merkle_proof: the fold, raising on a malformed root or step. */
  method VerifyExportMerkleProof(h: HashFn, line: Bytes, proof: seq<RawStep>, expectedRoot: Bytes)
    returns (r: PyResult<bool>)
    ensures r == ValueError <==> |expectedRoot| != 32 || exists s <- proof :: !WellFormedStep(s)
    ensures r != ValueError ==> r == Value(Climb(h, LeafHash(h, line), ToSteps(proof)).bytes == expectedRoot)
  {
    if |expectedRoot| != 32 {
      return ValueError;
    }
    var current := LeafHash(h, line);
    for j := 0 to |proof|
      invariant forall i :: 0 <= i < j ==> WellFormedStep(proof[i])
      invariant (forall s <- proof :: WellFormedStep(s)) ==>
        Climb(h, current, ToSteps(proof)[j..]) == Climb(h, LeafHash(h, line), ToSteps(proof))
    {
      var item := proof[j];
      if |item.sibling| != 32 {
        assert !WellFormedStep(proof[j]);
        return ValueError;
      }
      if item.position == "left" {
        current := NodeHash(h, Digest(item.sibling), current);
      } else if item.position == "right" {
        current := NodeHash(h, current, Digest(item.sibling));
      } else {
        assert !WellFormedStep(proof[j]);
        return ValueError;
      }
    }
    return Value(current.bytes == expectedRoot);
  }
}
