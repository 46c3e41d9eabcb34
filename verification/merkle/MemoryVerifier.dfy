/**
 * The archiver's in-memory verifier. It checks neither the number nor the sides of the steps, so it proves
 * membership but not the claimed position; domain separation is what keeps membership sound.
 */
module MemoryVerifier {
  import opened Options
  import opened Bytes
  import opened Binary
  import opened MerkleTree
  import opened AuditPath

  /** computeNodeHash with a sibling of any length. */
  function JoinRaw(h: HashFn, current: Digest, sibling: Bytes, side: Side): Digest {
    if side == Left then h([1] + sibling + current.bytes) else h([1] + current.bytes + sibling)
  }

  datatype LooseStep = LooseStep(sibling: Bytes, side: Side)

  function ClimbRaw(h: HashFn, current: Digest, path: seq<LooseStep>): Digest
    decreases |path|
  {
    if path == [] then current
    else
      var last := path[|path| - 1];
      JoinRaw(h, ClimbRaw(h, current, path[..|path| - 1]), last.sibling, last.side)
  }

  /** The position text of a step is one of the two the verifier knows. */
  predicate WellPlaced(path: seq<RawStep>) {
    forall s <- path :: s.position in ["left", "right"]
  }

  function Loosen(path: seq<RawStep>): (loose: seq<LooseStep>)
    requires WellPlaced(path)
    ensures |loose| == |path|
    ensures forall j :: 0 <= j < |path| ==>
      loose[j] == LooseStep(path[j].sibling, if path[j].position == "left" then Left else Right)
  {
    seq(|path|, j requires 0 <= j < |path| =>
      LooseStep(path[j].sibling, if path[j].position == "left" then Left else Right))
  }

  /** The archiver's proof with hex text decoded; leafIndex and treeSize are its claim of a position. */
  datatype MemoryProof = MemoryProof(
    room: string, leafIndex: int, treeSize: int, leafHash: Bytes, exportRoot: Bytes, auditPath: seq<RawStep>)

  /** The meaning of acceptance; an absent expected root falls back to the proof's own. */
  predicate AcceptsInMemory(h: HashFn, proof: MemoryProof, record: Bytes, expectedRoot: Option<Bytes>,
      expectedRoom: string)
  {
    && (expectedRoom != "" ==> proof.room == expectedRoom)
    && (expectedRoot.Some? ==> proof.exportRoot == expectedRoot.value)
    && proof.leafHash == LeafHash(h, record).bytes
    && WellPlaced(proof.auditPath)
    && ClimbRaw(h, LeafHash(h, record), Loosen(proof.auditPath)).bytes == proof.exportRoot
  }

  /** verifyInclusionProofInMemory. */
  method VerifyInMemory(h: HashFn, proof: MemoryProof, record: Bytes, expectedRoot: Option<Bytes>, expectedRoom: string)
    returns (ok: bool)
    ensures ok == AcceptsInMemory(h, proof, record, expectedRoot, expectedRoom)
  {
    hide ClimbRaw, LeafHash;
    if expectedRoom != "" && proof.room != expectedRoom {
      return false;
    }
    var rootToCheck := if expectedRoot.Some? then expectedRoot.value else proof.exportRoot;
    if proof.exportRoot != rootToCheck {
      return false;
    }
    var current := LeafHash(h, record);
    if current.bytes != proof.leafHash {
      return false;
    }
    var path := proof.auditPath;
    NoSteps(h, current);
    for j := 0 to |path|
      invariant WellPlaced(path[..j])
      invariant current == ClimbRaw(h, LeafHash(h, record), Loosen(path[..j]))
    {
      var step := path[j];
      NextStep(h, LeafHash(h, record), path, j);
      if step.position != "left" && step.position != "right" {
        assert step in path;
        return false;
      }
      if step.position == "left" {
        current := h([1] + step.sibling + current.bytes);
      } else {
        current := h([1] + current.bytes + step.sibling);
      }
    }
    assert path[..|path|] == path;
    return current.bytes == rootToCheck;
  }

  lemma NoSteps(h: HashFn, leaf: Digest)
    ensures ClimbRaw(h, leaf, []) == leaf
  {
  }

  lemma NextStep(h: HashFn, leaf: Digest, path: seq<RawStep>, j: nat)
    requires j < |path| && WellPlaced(path[..j])
    ensures WellPlaced(path[..j + 1]) <==> path[j].position in ["left", "right"]
    ensures WellPlaced(path[..j + 1]) ==>
      ClimbRaw(h, leaf, Loosen(path[..j + 1]))
        == JoinRaw(h, ClimbRaw(h, leaf, Loosen(path[..j])), path[j].sibling,
                   if path[j].position == "left" then Left else Right)
  {
    assert path[..j + 1] == path[..j] + [path[j]];
    if WellPlaced(path[..j + 1]) {
      hide JoinRaw, WellPlaced;
      assert Loosen(path[..j + 1])[..j] == Loosen(path[..j]);
    }
  }

  function LooseSides(path: seq<LooseStep>): (sides: seq<Side>)
    ensures |sides| == |path|
    ensures forall j :: 0 <= j < |path| ==> sides[j] == path[j].side
  {
    if path == [] then [] else LooseSides(path[..|path| - 1]) + [path[|path| - 1].side]
  }

  datatype Verdict = Found(index: nat) | Clash(collision: Collision)

  /** At the index found stands the record and the path has that index's directions; otherwise the clash is real. */
  predicate Justified(h: HashFn, lines: seq<Bytes>, record: Bytes, path: seq<LooseStep>, v: Verdict) {
    match v
    case Found(i) => i < |lines| && lines[i] == record && LooseSides(path) == Directions(|lines|, i)
    case Clash(c) => IsCollision(h, c)
  }

  /** The preimage of the last join. */
  function Top(h: HashFn, record: Bytes, path: seq<LooseStep>): (top: Bytes)
    requires path != []
    ensures h(top) == ClimbRaw(h, LeafHash(h, record), path)
    ensures |top| > 0 && top[0] == 1
  {
    var last := path[|path| - 1];
    var below := ClimbRaw(h, LeafHash(h, record), path[..|path| - 1]);
    if last.side == Left then [1] + last.sibling + below.bytes else [1] + below.bytes + last.sibling
  }

  /** The preimage of the root of a tree with more than one line. */
  function RootPreimage(h: HashFn, lines: seq<Bytes>): (top: Bytes)
    requires |lines| > 1
    ensures h(top) == TreeHash(h, lines)
    ensures |top| > 0 && top[0] == 1
  {
    [1] + TreeHash(h, lines[..Split(|lines|)]).bytes + TreeHash(h, lines[Split(|lines|)..]).bytes
  }

  /** Equal preimages split in the same place: below the last step lies the subtree on its other side. */
  lemma {:induction false} Descend(h: HashFn, lines: seq<Bytes>, record: Bytes, path: seq<LooseStep>)
    requires |lines| > 1 && path != []
    requires Top(h, record, path) == RootPreimage(h, lines)
    ensures ClimbRaw(h, LeafHash(h, record), path[..|path| - 1])
         == TreeHash(h, Entered(lines, path[|path| - 1].side))
  {
    hide TreeHash, ClimbRaw, Split;
    var last, k, top := path[|path| - 1], Split(|lines|), RootPreimage(h, lines);
    var l, r := TreeHash(h, lines[..k]), TreeHash(h, lines[k..]);
    var below := ClimbRaw(h, LeafHash(h, record), path[..|path| - 1]);
    assert top[1..33] == l.bytes && top[33..] == r.bytes;
    assert |top| == 65 && |last.sibling| == 32;
    if last.side == Left {
      assert top[33..] == below.bytes;
    } else {
      assert top[1..33] == below.bytes;
    }
  }

  /** A path and a subtree position, one level further from the leaf. */
  lemma {:induction false} DirectionsUp(size: nat, index: nat, side: Side)
    requires size > 1
    requires index < if side == Left then size - Split(size) else Split(size)
    ensures var k := Split(size);
      if side == Left then Directions(size, index + k) == Directions(size - k, index) + [Left]
      else Directions(size, index) == Directions(k, index) + [Right]
  {
    hide Directions, Split;
    if side == Left {
      DirectionsInRightSubtree(size, index + Split(size));
    } else {
      DirectionsInLeftSubtree(size, index);
    }
  }

  /**
   * An accepted path locates the record: at some index of the export it is the record, the sides are exactly that
   * index's directions, or a collision (possibly between a leaf and a node preimage) is computed.
   */
  function Locate(h: HashFn, lines: seq<Bytes>, record: Bytes, path: seq<LooseStep>): (v: Verdict)
    requires |lines| > 0
    requires ClimbRaw(h, LeafHash(h, record), path) == TreeHash(h, lines)
    ensures Justified(h, lines, record, path, v)
    decreases |lines|
  {
    if path == [] then
      if |lines| > 1 then Clash(Collision([0] + record, RootPreimage(h, lines)))
      else if record == lines[0] then Found(0)
      else Clash(LeafCollision(h, record, lines[0]))
    else if |lines| == 1 then
      Clash(Collision(Top(h, record, path), [0] + lines[0]))
    else if Top(h, record, path) != RootPreimage(h, lines) then
      Clash(Collision(Top(h, record, path), RootPreimage(h, lines)))
    else
      LocateBelow(h, lines, record, path)
  }

  /** The subtree that a path enters below its last step. */
  function Entered(lines: seq<Bytes>, side: Side): (part: seq<Bytes>)
    requires |lines| > 1
    ensures 0 < |part| < |lines|
  {
    if side == Left then lines[Split(|lines|)..] else lines[..Split(|lines|)]
  }

  function Lift(lines: seq<Bytes>, side: Side, v: Verdict): Verdict
    requires |lines| > 1
  {
    if v.Found? && side == Left then Found(v.index + Split(|lines|)) else v
  }

  function LocateBelow(h: HashFn, lines: seq<Bytes>, record: Bytes, path: seq<LooseStep>): (v: Verdict)
    requires |lines| > 1 && path != []
    requires Top(h, record, path) == RootPreimage(h, lines)
    ensures Justified(h, lines, record, path, v)
    decreases |lines|, 0
  {
    hide *;
    Descend(h, lines, record, path);
    var n := |path| - 1;
    var v := Locate(h, Entered(lines, path[n].side), record, path[..n]);
    LiftJustified(h, lines, record, path, v);
    Lift(lines, path[n].side, v)
  }

  /** What is found in a subtree is found in the tree, with one more side. */
  lemma {:induction false} LiftJustified(h: HashFn, lines: seq<Bytes>, record: Bytes, path: seq<LooseStep>, v: Verdict)
    requires |lines| > 1 && path != []
    requires Justified(h, Entered(lines, path[|path| - 1].side), record, path[..|path| - 1], v)
    ensures Justified(h, lines, record, path, Lift(lines, path[|path| - 1].side, v))
  {
    hide Directions, Split, IsCollision;
    if v.Found? {
      DirectionsUp(|lines|, v.index, path[|path| - 1].side);
    }
  }

  // ---- completeness ----

  /** The generator's steps with their positions as text. */
  function Written(path: seq<Step>): (raw: seq<RawStep>)
    ensures |raw| == |path|
    ensures forall j :: 0 <= j < |path| ==>
      raw[j] == RawStep(path[j].sibling.bytes, if path[j].side == Left then "left" else "right")
  {
    seq(|path|, j requires 0 <= j < |path| =>
      RawStep(path[j].sibling.bytes, if path[j].side == Left then "left" else "right"))
  }

  lemma {:induction false} ClimbsAlike(h: HashFn, leaf: Digest, path: seq<Step>)
    ensures WellPlaced(Written(path)) && ClimbRaw(h, leaf, Loosen(Written(path))) == Climb(h, leaf, path)
  {
    hide Climb, ClimbRaw, Join, JoinRaw, WellPlaced;
    if path == [] {
      NothingClimbed(h, leaf);
    } else {
      var n := |path| - 1;
      var init, last := path[..n], path[n];
      ClimbsAlike(h, leaf, init);
      WrittenPrefix(path);
      LastRaw(h, leaf, Loosen(Written(path)));
      assert path == init + [last];
      ClimbLast(h, leaf, init, last);
      JoinsAlike(h, Climb(h, leaf, init), last);
    }
  }

  lemma NothingClimbed(h: HashFn, leaf: Digest)
    ensures WellPlaced(Written([])) && Loosen(Written([])) == []
    ensures Climb(h, leaf, []) == leaf == ClimbRaw(h, leaf, [])
  {
  }

  lemma LastRaw(h: HashFn, leaf: Digest, path: seq<LooseStep>)
    requires path != []
    ensures var n := |path| - 1;
      ClimbRaw(h, leaf, path) == JoinRaw(h, ClimbRaw(h, leaf, path[..n]), path[n].sibling, path[n].side)
  {
  }

  lemma WrittenPrefix(path: seq<Step>)
    requires path != []
    ensures var n := |path| - 1;
      && WellPlaced(Written(path)) && WellPlaced(Written(path[..n]))
      && Loosen(Written(path))[..n] == Loosen(Written(path[..n]))
      && Loosen(Written(path))[n] == LooseStep(path[n].sibling.bytes, path[n].side)
  {
  }

  lemma JoinsAlike(h: HashFn, current: Digest, step: Step)
    ensures JoinRaw(h, current, step.sibling.bytes, step.side) == Join(h, current, step)
  {
  }

  lemma {:induction false} ClimbLast(h: HashFn, leaf: Digest, path: seq<Step>, last: Step)
    ensures Climb(h, leaf, path + [last]) == Join(h, Climb(h, leaf, path), last)
    decreases |path|
  {
    if path == [] {
      assert [last][1..] == [];
    } else {
      assert (path + [last])[1..] == path[1..] + [last];
      ClimbLast(h, Join(h, leaf, path[0]), path[1..], last);
    }
  }

  /** The generated proof of any line of any export is accepted unless another root or another room is expected. */
  lemma {:induction false} GeneratedIsAccepted(h: HashFn, lines: seq<Bytes>, index: nat, room: string,
      root: Option<Bytes>, expectedRoom: string)
    requires index < |lines|
    ensures var proof := MemoryProof(room, index, |lines|, LeafHash(h, lines[index]).bytes, TreeHash(h, lines).bytes,
                                     Written(Path(h, Leaves(h, lines), index)));
      AcceptsInMemory(h, proof, lines[index], root, expectedRoom)
      <==> (root.None? || root.value == TreeHash(h, lines).bytes) && expectedRoom in {"", room}
  {
    hide Path, Climb, ClimbRaw, TreeHash, Leaves, Fold, LeafHash, Written, Loosen;
    var level := Leaves(h, lines);
    PathReachesRoot(h, level, index);
    TreeHashIsFold(h, lines);
    ClimbsAlike(h, LeafHash(h, lines[index]), Path(h, level, index));
  }

  // ---- the claimed position ----

  /**
   * When the claim is right: an accepted proof, checked against the root of an export, is for the claimed line if and
   * only if its sides are the directions of the claimed index, or a collision is computed. The test needs no hashing.
   */
  lemma {:induction false} ClaimIsRight(h: HashFn, lines: seq<Bytes>, proof: MemoryProof, record: Bytes, room: string)
    requires |lines| > 0 && proof.treeSize == |lines| && 0 <= proof.leafIndex < proof.treeSize
    requires AcceptsInMemory(h, proof, record, Some(TreeHash(h, lines).bytes), room)
    ensures ClimbRaw(h, LeafHash(h, record), Loosen(proof.auditPath)) == TreeHash(h, lines)
    ensures
      var v := Locate(h, lines, record, Loosen(proof.auditPath));
      match v
      case Clash(c) => IsCollision(h, c)
      case Found(i) =>
        && i < |lines| && lines[i] == record
        && (i == proof.leafIndex <==>
              LooseSides(Loosen(proof.auditPath)) == Directions(proof.treeSize, proof.leafIndex))
  {
    hide ClimbRaw, TreeHash, Directions, Locate, LooseSides, IsCollision;
    var v := Locate(h, lines, record, Loosen(proof.auditPath));
    if v.Found? && v.index != proof.leafIndex {
      DirectionsPrefixFree(|lines|, v.index, proof.leafIndex);
    }
  }

  /** The verifier does not look at the claim: it accepts a proof with any index and size, or with none. */
  lemma ClaimIsIgnored(h: HashFn, proof: MemoryProof, record: Bytes, root: Option<Bytes>, room: string, i: int, n: int)
    ensures AcceptsInMemory(h, proof.(leafIndex := i, treeSize := n), record, root, room)
      <==> AcceptsInMemory(h, proof, record, root, room)
  {
  }

  /** So a proof that claims position 1 of an export is accepted for the line at position 0. */
  lemma {:induction false} PositionNotChecked(h: HashFn, a: Bytes, b: Bytes) returns (proof: MemoryProof)
    requires a != b
    ensures proof.leafIndex == 1 && proof.treeSize == 2 && [a, b][proof.leafIndex] != a
    ensures AcceptsInMemory(h, proof, a, Some(TreeHash(h, [a, b]).bytes), "")
  {
    var step := LooseStep(LeafHash(h, b).bytes, Right);
    proof := MemoryProof("", 1, 2, LeafHash(h, a).bytes, TreeHash(h, [a, b]).bytes,
                         [RawStep(LeafHash(h, b).bytes, "right")]);
    assert Loosen(proof.auditPath) == [step];
    assert [step][..0] == [] && ClimbRaw(h, LeafHash(h, a), []) == LeafHash(h, a);
    assert [a, b][..1] == [a] && [a, b][1..] == [b];
  }
}
