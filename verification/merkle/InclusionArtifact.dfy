/** Inclusion artifacts: what the stand-alone verifier checks, and what survives to a later export. */
module InclusionArtifact {
  import opened Options
  import opened Bytes
  import opened MerkleTree
  import opened AuditPath
  import opened Consistency
  import opened ConsistencyTheorems

  /**
   * A member of a decoded JSON artifact. WrongType stands for any value of another JSON type, and, for a member
   * that holds hex text, for text that bytes.fromhex rejects.
   */
  datatype Field<T> = Absent | WrongType | Is(value: T)

  datatype PathItem = NotAnObject | PathItem(position: Field<string>, siblingHash: Field<Bytes>)

  datatype Artifact = Artifact(
    version: Field<int>,
    profile: Field<string>,
    room: Field<string>,
    exportGeneration: Field<int>,
    leafIndex: Field<int>,
    treeSize: Field<int>,
    leafHash: Field<Bytes>,
    exportRoot: Field<Bytes>,
    auditPath: Field<seq<PathItem>>)

  /** What the caller may pin: None leaves the member unchecked, WrongType is an unusable expectation. */
  datatype Expected = Expected(root: Field<Bytes>, generation: Field<int>, room: Option<string>)

  predicate GoodItem(item: PathItem) {
    && item.PathItem?
    && item.position in [Is("left"), Is("right")]
    && item.siblingHash.Is? && |item.siblingHash.value| == 32
  }

  function ItemStep(item: PathItem): Step
    requires GoodItem(item)
  {
    Step(Digest(item.siblingHash.value), if item.position == Is("left") then Left else Right)
  }

  function ItemSteps(items: seq<PathItem>): (steps: seq<Step>)
    requires forall item <- items :: GoodItem(item)
    ensures |steps| == |items|
    ensures forall j :: 0 <= j < |items| ==> steps[j] == ItemStep(items[j])
  {
    seq(|items|, j requires 0 <= j < |items| => ItemStep(items[j]))
  }

  /** The header of an artifact: everything but the hashes. */
  predicate HeaderHolds(a: Artifact, want: Expected) {
    && a.version == Is(1)
    && a.profile == Is("tc-ledger/1")
    && a.room.Is? && a.room.value != ""
    && (want.room.Some? ==> a.room.value == want.room.value)
    && a.leafIndex.Is? && a.treeSize.Is? && 0 <= a.leafIndex.value < a.treeSize.value
    && a.exportGeneration != WrongType
    && (a.exportGeneration.Is? ==> a.exportGeneration.value >= 0)
    && want.generation != WrongType
    && (want.generation.Is? ==> a.exportGeneration == want.generation)
  }

  /** The meaning of acceptance: a well-shaped path climbs from this line's leaf hash to the committed root. */
  predicate AcceptsInclusion(h: HashFn, line: Bytes, a: Artifact, want: Expected) {
    && HeaderHolds(a, want)
    && a.leafHash.Is? && a.leafHash.value == LeafHash(h, line).bytes
    && a.exportRoot.Is? && |a.exportRoot.value| == 32
    && a.auditPath.Is?
    && (forall item <- a.auditPath.value :: GoodItem(item))
    && Sides(ItemSteps(a.auditPath.value)) == Directions(a.treeSize.value, a.leafIndex.value)
    && Climb(h, LeafHash(h, line), ItemSteps(a.auditPath.value)).bytes == a.exportRoot.value
    && want.root != WrongType
    && (want.root.Is? ==> want.root == a.exportRoot)
  }

  /** verify_export_inclusion_proof, exit by exit. */
  method VerifyExportInclusionProof(h: HashFn, line: Bytes, a: Artifact, want: Expected) returns (ok: bool)
    ensures ok == AcceptsInclusion(h, line, a, want)
  {
    if !HeaderHolds(a, want) {
      return false;
    }
    if !a.leafHash.Is? || !a.exportRoot.Is? || !a.auditPath.Is? {
      return false;
    }
    var items := a.auditPath.value;
    if |a.leafHash.value| != 32 || |a.exportRoot.value| != 32 {
      return false;
    }
    if LeafHash(h, line).bytes != a.leafHash.value {
      return false;
    }
    var expected := ExpectedProofDirections(a.treeSize.value, a.leafIndex.value);
    var dirs := expected.value;
    if |items| != |dirs| {
      return false;
    }
    var proof: seq<RawStep> := [];
    for j := 0 to |items|
      invariant |proof| == j
      invariant forall i :: 0 <= i < j ==> GoodItem(items[i]) && ItemStep(items[i]).side == dirs[i]
      invariant forall i :: 0 <= i < j ==>
        proof[i] == RawStep(items[i].siblingHash.value, items[i].position.value)
    {
      var item := items[j];
      if !item.PathItem? || item.position != Is(if dirs[j] == Left then "left" else "right") {
        WrongItem(items, dirs, j);
        return false;
      }
      if !item.siblingHash.Is? || |item.siblingHash.value| != 32 {
        assert !GoodItem(items[j]);
        return false;
      }
      proof := proof + [RawStep(item.siblingHash.value, item.position.value)];
    }
    assert ToSteps(proof) == ItemSteps(items);
    assert Sides(ItemSteps(items)) == dirs;
    var folded := VerifyExportMerkleProof(h, line, proof, a.exportRoot.value);
    if folded == Value(false) {
      return false;
    }
    if want.root == WrongType || (want.root.Is? && (|want.root.value| != 32 || a.exportRoot.value != want.root.value)) {
      return false;
    }
    return true;
  }

  lemma WrongItem(items: seq<PathItem>, dirs: seq<Side>, j: nat)
    requires j < |items| == |dirs|
    requires !items[j].PathItem? || items[j].position != Is(if dirs[j] == Left then "left" else "right")
    ensures (forall item <- items :: GoodItem(item)) ==> Sides(ItemSteps(items)) != dirs
  {
    if forall item <- items :: GoodItem(item) {
      assert GoodItem(items[j]);
      assert Sides(ItemSteps(items))[j] == ItemStep(items[j]).side;
    }
  }

  function SideName(side: Side): string {
    if side == Left then "left" else "right"
  }

  function WriteSteps(path: seq<Step>): (items: seq<PathItem>)
    ensures |items| == |path|
    ensures forall j :: 0 <= j < |path| ==>
      items[j] == PathItem(Is(SideName(path[j].side)), Is(path[j].sibling.bytes))
  {
    seq(|path|, j requires 0 <= j < |path| => PathItem(Is(SideName(path[j].side)), Is(path[j].sibling.bytes)))
  }

  /** build_inclusion_proof_artifact for a line that exists. */
  function BuildArtifact(h: HashFn, lines: seq<Bytes>, room: string, index: nat, generation: nat): Artifact
    requires index < |lines|
  {
    Artifact(Is(1), Is("tc-ledger/1"), Is(room), Is(generation), Is(index), Is(|lines|),
             Is(LeafHash(h, lines[index]).bytes), Is(TreeHash(h, lines).bytes),
             Is(WriteSteps(Path(h, Leaves(h, lines), index))))
  }

  /**
   * Any artifact that keeps the built position, size and path, under any expectations: it is accepted for the line
   * exactly when its constants are the format's, its room is named, its hashes are the line's and the export's, and
   * each expectation that is pinned is what the artifact says.
   */
  lemma {:induction false} BuiltPathAccepted(h: HashFn, lines: seq<Bytes>, room: string, index: nat, generation: nat,
      a: Artifact, want: Expected)
    requires index < |lines|
    requires var built := BuildArtifact(h, lines, room, index, generation);
      a.leafIndex == built.leafIndex && a.treeSize == built.treeSize && a.auditPath == built.auditPath
    ensures AcceptsInclusion(h, lines[index], a, want)
      <==>
      && a.version == Is(1) && a.profile == Is("tc-ledger/1")
      && a.room.Is? && a.room.value != "" && want.room in {None, Some(a.room.value)}
      && (a.exportGeneration == Absent || (a.exportGeneration.Is? && a.exportGeneration.value >= 0))
      && want.generation in {Absent, a.exportGeneration}
      && a.leafHash.Is? && a.leafHash.value == LeafHash(h, lines[index]).bytes
      && a.exportRoot.Is? && a.exportRoot.value == TreeHash(h, lines).bytes
      && want.root in {Absent, a.exportRoot}
  {
    hide Path, Climb, TreeHash, Directions, Fold, Leaves, Sides, ItemSteps, WriteSteps, LeafHash;
    var level := Leaves(h, lines);
    PathHasDirections(h, level, index);
    PathReachesRoot(h, level, index);
    TreeHashIsFold(h, lines);
    WriteThenRead(Path(h, level, index));
  }

  /**
   * Completeness: what the builder writes for a line is accepted for that line if and only if the room has a name and
   * root, generation and room are each left open or pinned to what was built.
   */
  lemma {:induction false} BuiltArtifactAccepted(h: HashFn, lines: seq<Bytes>, room: string, index: nat,
      generation: nat, want: Expected)
    requires index < |lines|
    ensures var root: Bytes := TreeHash(h, lines).bytes;
      AcceptsInclusion(h, lines[index], BuildArtifact(h, lines, room, index, generation), want)
      <==>
      && room != ""
      && want.root in {Absent, Is(root)}
      && want.generation in {Absent, Is(generation)}
      && want.room in {None, Some(room)}
  {
    hide AcceptsInclusion, Path, TreeHash, Leaves, WriteSteps, LeafHash;
    BuiltPathAccepted(h, lines, room, index, generation, BuildArtifact(h, lines, room, index, generation), want);
  }

  lemma WriteThenRead(path: seq<Step>)
    ensures forall item <- WriteSteps(path) :: GoodItem(item)
    ensures ItemSteps(WriteSteps(path)) == path
  {
    forall item | item in WriteSteps(path) ensures GoodItem(item) {}
  }

  /**
   * An artifact accepted against the root of an export of the stated size, although the line is not the one at the
   * stated index or the path is not the generated one.
   */
  predicate Misplaced(h: HashFn, line: Bytes, a: Artifact, want: Expected, lines: seq<Bytes>) {
    && AcceptsInclusion(h, line, a, want)
    && a.treeSize.value == |lines|
    && a.exportRoot.value == TreeHash(h, lines).bytes
    && (line != lines[a.leafIndex.value]
        || ItemSteps(a.auditPath.value) != Path(h, Leaves(h, lines), a.leafIndex.value))
  }

  /** Soundness with position: from a misplaced artifact the collision is computed. */
  function InclusionCollision(h: HashFn, line: Bytes, a: Artifact, want: Expected, lines: seq<Bytes>): (c: Collision)
    requires Misplaced(h, line, a, want, lines)
    ensures IsCollision(h, c)
  {
    hide Path, Climb, TreeHash, Directions, Fold, Sides;
    TreeHashIsFold(h, lines);
    var i := a.leafIndex.value;
    if LeafHash(h, line) == LeafHash(h, lines[i]) && line != lines[i] then
      LeafCollision(h, line, lines[i])
    else
      PathCollision(h, Leaves(h, lines), i, LeafHash(h, line), ItemSteps(a.auditPath.value))
  }

  /**
   * An accepted artifact of an old export and an accepted consistency proof from its root to a new export, in which
   * another line stands at the artifact's index. The old export does not occur.
   */
  predicate Displaced(h: HashFn, line: Bytes, a: Artifact, want: Expected, lines: seq<Bytes>, proof: seq<Digest>) {
    && AcceptsInclusion(h, line, a, want)
    && a.treeSize.value <= |lines|
    && Accepts(h, a.treeSize.value, |lines|, Digest(a.exportRoot.value), TreeHash(h, lines), proof)
    && line != lines[a.leafIndex.value]
  }

  /** Evidence survives generations: from such a displacement the collision is computed. */
  function SurvivalCollision(h: HashFn, line: Bytes, a: Artifact, want: Expected, lines: seq<Bytes>,
                             proof: seq<Digest>): (c: Collision)
    requires Displaced(h, line, a, want, lines, proof)
    ensures IsCollision(h, c)
  {
    hide Path, Climb, TreeHash, Directions, Fold, ConsistencyProof, Sides;
    var m := a.treeSize.value;
    var prefix := lines[..m];
    if m == |lines| then
      assert Digest(a.exportRoot.value) == TreeHash(h, lines);
      InclusionCollision(h, line, a, want, lines)
    else if Digest(a.exportRoot.value) == TreeHash(h, prefix) then
      assert prefix[a.leafIndex.value] == lines[a.leafIndex.value];
      InclusionCollision(h, line, a, want, prefix)
    else
      ConsistencyCollision(h, m, Digest(a.exportRoot.value), lines, proof)
  }

  /** No artifact can be accepted for two positions of one tree: the directions of distinct leaves always differ. */
  lemma PositionIsFixed(h: HashFn, line: Bytes, a: Artifact, want: Expected, elsewhere: int)
    requires AcceptsInclusion(h, line, a, want)
    requires elsewhere != a.leafIndex.value
    ensures !AcceptsInclusion(h, line, a.(leafIndex := Is(elsewhere)), want)
  {
    hide Climb, Directions, Sides;
    if 0 <= elsewhere < a.treeSize.value {
      DirectionsPrefixFree(a.treeSize.value, a.leafIndex.value, elsewhere);
    }
  }
}
