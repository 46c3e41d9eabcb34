/** What an accepted consistency proof means, and that every honest proof is accepted. */
module ConsistencyTheorems {
  import opened Options
  import opened Bytes
  import opened Binary
  import opened MerkleTree
  import opened AuditPath
  import opened Consistency

  // ---- the outer loop is an audit-path fold ----

  /** The sides of an audit path attached to the nodes of a proof. */
  function Attach(sides: seq<Side>, proof: seq<Digest>): (path: seq<Step>)
    requires |sides| == |proof|
    ensures |path| == |proof|
    ensures Sides(path) == sides && Siblings(path) == proof
  {
    if proof == [] then [] else
      var rest := Attach(sides[1..], proof[1..]);
      SidesConcat([Step(proof[0], sides[0])], rest);
      SiblingsConcat([Step(proof[0], sides[0])], rest);
      [Step(proof[0], sides[0])] + rest
  }

  /** Only siblings on the left belong to the old tree. */
  function ClimbLeft(h: HashFn, current: Digest, path: seq<Step>): Digest
    decreases |path|
  {
    if path == [] then current
    else if path[0].side == Left then ClimbLeft(h, NodeHash(h, path[0].sibling, current), path[1..])
    else ClimbLeft(h, current, path[1..])
  }

  lemma ClimbLeftCons(h: HashFn, current: Digest, step: Step, rest: seq<Step>)
    ensures ClimbLeft(h, current, [step] + rest) ==
      ClimbLeft(h, if step.side == Left then NodeHash(h, step.sibling, current) else current, rest)
  {
    assert ([step] + rest)[1..] == rest;
  }

  /** While a lone last node is promoted, the loop consumes nothing. */
  lemma ConsumePromotes(h: HashFn, fn: Digest, sn: Digest, i: nat, proof: seq<Digest>)
    requires i % 2 == 0 && i != 0 && proof != []
    ensures Consume(h, fn, sn, i, i, proof) == Consume(h, fn, sn, i / 2, i / 2, proof)
  {
    assert SkipEven(i, i) == SkipEven(i / 2, i / 2);
    if (i / 2) % 2 == 1 {
      assert SkipEven(i / 2, i / 2) == (i / 2, i / 2);
    }
  }

  lemma ConsumeOne(h: HashFn, fn: Digest, sn: Digest, i: nat, last: nat, proof: seq<Digest>)
    requires i <= last && proof != [] && SiblingSide(last + 1, i) != []
    ensures Consume(h, fn, sn, i, last, proof) ==
      if i % 2 == 1 then
        Consume(h, NodeHash(h, proof[0], fn), NodeHash(h, proof[0], sn), i / 2, last / 2, proof[1..])
      else
        Consume(h, fn, NodeHash(h, sn, proof[0]), i / 2, last / 2, proof[1..])
  {
    if i % 2 == 1 {
      assert SkipEven(i, last) == (i, last);
    }
  }

  lemma {:induction false} DirectionsNonEmpty(size: nat, i: nat)
    requires i < size && size > 1
    ensures Directions(size, i) != []
    decreases size
  {
    if SiblingSide(size, i) == [] {
      DirectionsNonEmpty((size + 1) / 2, i / 2);
    }
  }

  /**
   * The index-shifting loop, read as a fold: it ends at a single node exactly when the proof has the length of the
   * audit path, and then it has climbed that path with both hashes.
   */
  predicate LoopClimbs(h: HashFn, fn: Digest, sn: Digest, i: nat, last: nat, proof: seq<Digest>)
    requires i <= last
  {
    var r := Consume(h, fn, sn, i, last, proof);
    var dirs := Directions(last + 1, i);
    && ((r.Some? && r.value.2 == 0) <==> |proof| == |dirs|)
    && (|proof| == |dirs| ==>
          var path := Attach(dirs, proof);
          r == Some((ClimbLeft(h, fn, path), Climb(h, sn, path), 0)))
  }

  lemma {:induction false} ConsumeIsClimb(h: HashFn, fn: Digest, sn: Digest, i: nat, last: nat, proof: seq<Digest>)
    requires i <= last
    ensures LoopClimbs(h, fn, sn, i, last, proof)
    decreases last
  {
    hide LoopClimbs, Consume, Directions;
    if last == 0 || proof == [] {
      LoopAtEnds(h, fn, sn, i, last, proof);
    } else if SiblingSide(last + 1, i) == [] {
      LoopPromotes(h, fn, sn, i, proof);
      ConsumeIsClimb(h, fn, sn, i / 2, last / 2, proof);
    } else {
      ConsumeIsClimb(h, if i % 2 == 1 then NodeHash(h, proof[0], fn) else fn,
                     if i % 2 == 1 then NodeHash(h, proof[0], sn) else NodeHash(h, sn, proof[0]),
                     i / 2, last / 2, proof[1..]);
      LoopSteps(h, fn, sn, i, last, proof);
    }
  }

  lemma LoopAtEnds(h: HashFn, fn: Digest, sn: Digest, i: nat, last: nat, proof: seq<Digest>)
    requires i <= last && (last == 0 || proof == [])
    ensures LoopClimbs(h, fn, sn, i, last, proof)
  {
    if last == 0 {
      assert Directions(last + 1, i) == [];
    } else {
      DirectionsNonEmpty(last + 1, i);
    }
  }

  lemma LoopPromotes(h: HashFn, fn: Digest, sn: Digest, i: nat, proof: seq<Digest>)
    requires i > 0 && proof != [] && i % 2 == 0
    ensures LoopClimbs(h, fn, sn, i / 2, i / 2, proof) ==> LoopClimbs(h, fn, sn, i, i, proof)
  {
    hide Consume, Directions, Climb, ClimbLeft, Attach;
    ConsumePromotes(h, fn, sn, i, proof);
    DirectionsOnce(i + 1, i);
    AddNothing(Directions(i / 2 + 1, i / 2));
  }

  lemma LoopSteps(h: HashFn, fn: Digest, sn: Digest, i: nat, last: nat, proof: seq<Digest>)
    requires i <= last && last > 0 && proof != [] && SiblingSide(last + 1, i) != []
    requires LoopClimbs(h, if i % 2 == 1 then NodeHash(h, proof[0], fn) else fn,
                        if i % 2 == 1 then NodeHash(h, proof[0], sn) else NodeHash(h, sn, proof[0]),
                        i / 2, last / 2, proof[1..])
    ensures LoopClimbs(h, fn, sn, i, last, proof)
  {
    hide Consume, Directions, Climb, ClimbLeft, Attach, NodeHash;
    var above := Directions(last / 2 + 1, i / 2);
    assert (last + 2) / 2 == last / 2 + 1;
    DirectionsOnce(last + 1, i);
    ConsumeOne(h, fn, sn, i, last, proof);
    if |proof| == |Directions(last + 1, i)| {
      var side := if i % 2 == 1 then Left else Right;
      AttachCons(side, above, proof);
      var rest := Attach(above, proof[1..]);
      ClimbCons(h, sn, Step(proof[0], side), rest);
      ClimbLeftCons(h, fn, Step(proof[0], side), rest);
    }
  }

  lemma AttachCons(side: Side, above: seq<Side>, proof: seq<Digest>)
    requires |proof| == |above| + 1
    ensures Attach([side] + above, proof) == [Step(proof[0], side)] + Attach(above, proof[1..])
  {
    assert ([side] + above)[1..] == above;
  }

  // ---- what the two hashes end at ----

  lemma PairUpSmall(h: HashFn, a: Digest, b: Digest)
    ensures PairUp(h, [a]) == [a]
    ensures PairUp(h, [a, b]) == [NodeHash(h, a, b)]
  {
    PairUpAt(h, [a, b], 0);
  }

  lemma PairUpConcat(h: HashFn, a: seq<Digest>, j: nat, b: seq<Digest>)
    requires |a| == 2 * j
    ensures PairUp(h, a + b) == PairUp(h, a) + PairUp(h, b)
  {
    hide PairUp, NodeHash;
    var next := PairUp(h, a + b);
    PairUpSlices(h, a + b, j);
    assert (a + b)[..2 * j] == a && (a + b)[2 * j..] == b;
    assert next == next[..j] + next[j..];
  }

  lemma {:induction false} PairUpPrefixEven(h: HashFn, level: seq<Digest>, j: nat, node: Digest)
    requires 2 * j < |level|
    ensures PairUp(h, level[..2 * j] + [node]) == PairUp(h, level)[..j] + [node]
  {
    hide PairUp, NodeHash;
    PairUpSlices(h, level, j);
    PairUpConcat(h, level[..2 * j], j, [node]);
    PairUpSmall(h, node, node);
  }

  lemma {:induction false} PairUpPrefixOdd(h: HashFn, level: seq<Digest>, j: nat, node: Digest)
    requires 2 * j + 1 < |level|
    ensures PairUp(h, level[..2 * j + 1] + [node]) == PairUp(h, level)[..j] + [NodeHash(h, level[2 * j], node)]
  {
    hide PairUp, NodeHash;
    var a, x := level[..2 * j], level[2 * j];
    assert level[..2 * j + 1] == a + [x];
    assert level[..2 * j + 1] + [node] == a + [x, node];
    PairUpSlices(h, level, j);
    PairUpConcat(h, a, j, [x, node]);
    PairUpSmall(h, x, node);
    assert PairUp(h, a + [x, node]) == PairUp(h, a) + [NodeHash(h, x, node)];
  }

  lemma {:induction false} PairUpPrefix(h: HashFn, level: seq<Digest>, i: nat, node: Digest)
    requires i < |level|
    ensures i % 2 == 0 ==> PairUp(h, level[..i] + [node]) == PairUp(h, level)[..i / 2] + [node]
    ensures i % 2 == 1 ==>
      PairUp(h, level[..i] + [node]) == PairUp(h, level)[..i / 2] + [NodeHash(h, level[i - 1], node)]
  {
    hide PairUp, NodeHash;
    var j := i / 2;
    if i % 2 == 0 {
      assert level[..i] == level[..2 * j];
      PairUpPrefixEven(h, level, j, node);
    } else {
      assert level[..i] == level[..2 * j + 1] && level[i - 1] == level[2 * j];
      PairUpPrefixOdd(h, level, j, node);
    }
  }

  /** Climbing with the left siblings only builds the root of the old level: everything before i, then the seed. */
  lemma {:induction false} ClimbLeftReachesOldRoot(h: HashFn, level: seq<Digest>, i: nat, seed: Digest)
    requires i < |level|
    ensures ClimbLeft(h, seed, Path(h, level, i)) == Fold(h, level[..i] + [seed])
    decreases |level|
  {
    hide Path, PairUp, ClimbLeft, Fold, NodeHash;
    var was := level[..i] + [seed];
    if |level| == 1 {
      RootPath(h, level, i);
      assert was == [seed];
      FoldOfOne(h, was);
      ClimbLeftOfNothing(h, seed);
    } else {
      var next := PairUp(h, level);
      var up := if i % 2 == 1 then NodeHash(h, level[i - 1], seed) else seed;
      PathOnce(h, level, i);
      PairUpPrefix(h, level, i, seed);
      FoldOnce(h, was);
      ClimbLeftReachesOldRoot(h, next, i / 2, up);
      var above := Path(h, next, i / 2);
      if Sibling(level, i) == [] {
        AddNothing(above);
      } else {
        ClimbLeftCons(h, seed, Sibling(level, i)[0], above);
      }
    }
  }

  lemma ClimbLeftOfNothing(h: HashFn, current: Digest)
    ensures ClimbLeft(h, current, []) == current
  {
  }

  // ---- the level at which the old tree's last complete subtree is one node ----

  /** The first loop of the verifier on the tree itself: pair up while the old size is even. */
  function Base(h: HashFn, m: nat, level: seq<Digest>): (r: (nat, seq<Digest>))
    requires 0 < m <= |level|
    ensures 0 < r.0 <= |r.1| && r.0 % 2 == 1
    decreases m
  {
    if m % 2 == 0 then Base(h, m / 2, PairUp(h, level)) else (m, level)
  }

  lemma {:induction false} SkipOddIsBase(h: HashFn, m: nat, level: seq<Digest>)
    requires 0 < m <= |level|
    ensures var (odd, base) := Base(h, m, level);
      SkipOdd(m - 1, |level| - 1) == (odd - 1, |base| - 1)
    decreases m
  {
    if m % 2 == 0 {
      SkipOddIsBase(h, m / 2, PairUp(h, level));
      assert (m - 1) / 2 == m / 2 - 1;
    }
  }

  lemma {:induction false} BaseKeepsRoots(h: HashFn, m: nat, level: seq<Digest>)
    requires 0 < m <= |level|
    ensures var (odd, base) := Base(h, m, level);
      && Fold(h, base) == Fold(h, level)
      && Fold(h, base[..odd]) == Fold(h, level[..m])
      && (odd == 1 <==> IsPow2(m))
      && (m < |level| ==> odd < |base|)
    decreases m
  {
    hide Fold, PairUp, NodeHash;
    if m % 2 == 0 {
      BaseKeepsRoots(h, m / 2, PairUp(h, level));
      FoldOnce(h, level);
      FoldOnce(h, level[..m]);
      PairUpSlices(h, level, m / 2);
    }
  }

  lemma {:induction false} SubproofAtBase(h: HashFn, m: nat, level: seq<Digest>, b: bool)
    requires 0 < m <= |level|
    ensures var (odd, base) := Base(h, m, level);
      LevelSubproof(h, m, level, b) == LevelSubproof(h, odd, base, b)
    decreases m
  {
    hide LevelSubproof, PairUp, NodeHash;
    if m % 2 == 0 {
      SubproofHalves(h, m / 2, level, b);
      SubproofAtBase(h, m / 2, PairUp(h, level), b);
    }
  }

  // ---- theorems ----

  /** The proof the generator makes, as the verifier will read it: an optional seed and the audit path of the seed. */
  lemma ProofShape(h: HashFn, m: nat, lines: seq<Bytes>)
    requires 0 < m < |lines|
    ensures var (odd, base) := Base(h, m, Leaves(h, lines));
      ConsistencyProof(h, m, lines) ==
        Value((if IsPow2(m) then [] else [base[odd - 1]]) + Siblings(Path(h, base, odd - 1)))
  {
    hide LevelSubproof, Fold, PairUp, Path, TreeHash, Leaves, Siblings, NodeHash;
    var level := Leaves(h, lines);
    var (odd, base) := Base(h, m, level);
    SplitByBitLengthIsSplit(|lines|);
    assert ConsistencyProof(h, m, lines) == Value(Subproof(h, m, lines, true));
    SubproofIsLevelSubproof(h, m, lines, true);
    SubproofAtBase(h, m, level, true);
    BaseKeepsRoots(h, m, level);
    SubproofIsPath(h, odd, base, true);
  }

  /** The old and the new root, both read off at the base level. */
  lemma {:induction false} RootsAtBase(h: HashFn, m: nat, lines: seq<Bytes>)
    requires 0 < m <= |lines|
    ensures var (odd, base) := Base(h, m, Leaves(h, lines));
      && TreeHash(h, lines) == Fold(h, base)
      && TreeHash(h, lines[..m]) == Fold(h, base[..odd - 1] + [base[odd - 1]])
  {
    hide Fold, PairUp, TreeHash, Base, Leaves, NodeHash;
    var (odd, base) := Base(h, m, Leaves(h, lines));
    BaseKeepsRoots(h, m, Leaves(h, lines));
    TreeHashIsFold(h, lines);
    TreeHashIsFold(h, lines[..m]);
    LeavesSlices(h, lines, m);
    assert base[..odd] == base[..odd - 1] + [base[odd - 1]];
  }

  /** The seed and the remaining nodes, as the verifier splits a proof. */
  function Seed(m: nat, oldRoot: Digest, proof: seq<Digest>): Digest
    requires proof != []
  {
    if IsPow2(m) then oldRoot else proof[0]
  }

  function Rest(m: nat, proof: seq<Digest>): seq<Digest>
    requires proof != []
  {
    if IsPow2(m) then proof else proof[1..]
  }

  /** A proof of the one length that the sizes admit. */
  predicate FitsBase(h: HashFn, m: nat, level: seq<Digest>, proof: seq<Digest>)
    requires 0 < m <= |level|
  {
    var (odd, base) := Base(h, m, level);
    proof != [] && |Rest(m, proof)| == |Directions(|base|, odd - 1)|
  }

  /** The audit path that such a proof spells out at the base level. */
  function ProofPath(h: HashFn, m: nat, level: seq<Digest>, proof: seq<Digest>): (path: seq<Step>)
    requires 0 < m <= |level| && FitsBase(h, m, level, proof)
  {
    Attach(Directions(|Base(h, m, level).1|, Base(h, m, level).0 - 1), Rest(m, proof))
  }

  lemma ProofPathParts(h: HashFn, m: nat, level: seq<Digest>, proof: seq<Digest>)
    requires 0 < m <= |level| && FitsBase(h, m, level, proof)
    ensures Sides(ProofPath(h, m, level, proof)) == Directions(|Base(h, m, level).1|, Base(h, m, level).0 - 1)
    ensures Siblings(ProofPath(h, m, level, proof)) == Rest(m, proof)
  {
    hide Sides, Siblings, Attach, Directions, Base;
  }

  /** Acceptance for 0 < m < n, with the bit arithmetic gone. */
  lemma AcceptsAsClimb(h: HashFn, m: nat, level: seq<Digest>, oldRoot: Digest, newRoot: Digest, proof: seq<Digest>)
    requires 0 < m < |level|
    ensures Accepts(h, m, |level|, oldRoot, newRoot, proof) <==>
      && FitsBase(h, m, level, proof)
      && ClimbLeft(h, Seed(m, oldRoot, proof), ProofPath(h, m, level, proof)) == oldRoot
      && Climb(h, Seed(m, oldRoot, proof), ProofPath(h, m, level, proof)) == newRoot
  {
    hide Directions, Climb, ClimbLeft, Attach, PairUp, Base, Consume, SkipOdd, BitAnd, IsPow2, NodeHash;
    if proof != [] {
      var (odd, base) := Base(h, m, level);
      SkipOddIsBase(h, m, level);
      BitAndRecognisesPow2(m);
      var seed := Seed(m, oldRoot, proof);
      ConsumeIsClimb(h, seed, seed, odd - 1, |base| - 1, Rest(m, proof));
    }
  }

  /** The seed is the old tree's last node at the base level, and the path is that node's audit path. */
  predicate HonestAtBase(h: HashFn, m: nat, level: seq<Digest>, oldRoot: Digest, proof: seq<Digest>)
    requires 0 < m <= |level| && FitsBase(h, m, level, proof)
  {
    var (odd, base) := Base(h, m, level);
    Seed(m, oldRoot, proof) == base[odd - 1] && ProofPath(h, m, level, proof) == Path(h, base, odd - 1)
  }

  lemma AttachPath(h: HashFn, level: seq<Digest>, i: nat)
    requires i < |level|
    ensures |Siblings(Path(h, level, i))| == |Directions(|level|, i)|
    ensures Attach(Directions(|level|, i), Siblings(Path(h, level, i))) == Path(h, level, i)
  {
    hide Path, Attach, Directions, NodeHash;
    var path := Path(h, level, i);
    PathHasDirections(h, level, i);
    var again := Attach(Directions(|level|, i), Siblings(path));
    SamePath(again, path);
  }

  lemma SamePath(a: seq<Step>, b: seq<Step>)
    requires Sides(a) == Sides(b) && Siblings(a) == Siblings(b)
    ensures a == b
  {
    assert |a| == |Sides(a)| == |b|;
    forall j | 0 <= j < |a| ensures a[j] == b[j] {
      assert Sides(a)[j] == Sides(b)[j] && Siblings(a)[j] == Siblings(b)[j];
    }
  }

  /** The generated proof is honest at the base level. */
  lemma GeneratedIsHonest(h: HashFn, m: nat, lines: seq<Bytes>)
    requires 0 < m < |lines|
    ensures var proof, level := ConsistencyProof(h, m, lines), Leaves(h, lines);
      && proof.Value? && FitsBase(h, m, level, proof.value)
      && HonestAtBase(h, m, level, TreeHash(h, lines[..m]), proof.value)
  {
    hide Directions, PairUp, Base, Path, Fold, Leaves, Siblings, Sides, IsPow2, TreeHash, ConsistencyProof, NodeHash;
    var level := Leaves(h, lines);
    var (odd, base) := Base(h, m, level);
    ProofShape(h, m, lines);
    BaseKeepsRoots(h, m, level);
    AttachPath(h, base, odd - 1);
    DirectionsNonEmpty(|base|, odd - 1);
    PathHasDirections(h, base, odd - 1);
    var proof, path := ConsistencyProof(h, m, lines).value, Path(h, base, odd - 1);
    if IsPow2(m) {
      RootsAtBase(h, m, lines);
      assert base[..odd - 1] + [base[odd - 1]] == [base[0]];
      FoldOfOne(h, [base[0]]);
      AddNothing(Siblings(path));
    } else {
      assert proof[1..] == Siblings(path);
    }
    assert Rest(m, proof) == Siblings(path);
  }

  /** Completeness: the generated proof is accepted with the two tree hashes, for every prefix of every export. */
  lemma {:induction false} ConsistencyComplete(h: HashFn, m: nat, lines: seq<Bytes>)
    requires m <= |lines|
    ensures ConsistencyProof(h, m, lines).Value?
    ensures Accepts(h, m, |lines|, TreeHash(h, lines[..m]), TreeHash(h, lines), ConsistencyProof(h, m, lines).value)
  {
    hide Directions, Climb, ClimbLeft, Attach, PairUp, Base, Path, Fold, Leaves, Siblings, Seed, Rest, NodeHash;
    if m == |lines| {
      assert lines[..m] == lines;
    } else if m == 0 {
      assert lines[..m] == [];
    } else {
      ConsistencyCompleteProper(h, m, lines);
    }
  }

  lemma {:induction false} ConsistencyCompleteProper(h: HashFn, m: nat, lines: seq<Bytes>)
    requires 0 < m < |lines|
    ensures ConsistencyProof(h, m, lines).Value?
    ensures Accepts(h, m, |lines|, TreeHash(h, lines[..m]), TreeHash(h, lines), ConsistencyProof(h, m, lines).value)
  {
    hide Accepts, Directions, Climb, ClimbLeft, PairUp, Base, Path, Fold, Leaves, TreeHash, ConsistencyProof, ProofPath,
      FitsBase, Seed;
    var level := Leaves(h, lines);
    var (odd, base) := Base(h, m, level);
    GeneratedIsHonest(h, m, lines);
    RootsAtBase(h, m, lines);
    PathReachesRoot(h, base, odd - 1);
    ClimbLeftReachesOldRoot(h, base, odd - 1, base[odd - 1]);
    AcceptsAsClimb(h, m, level, TreeHash(h, lines[..m]), TreeHash(h, lines), ConsistencyProof(h, m, lines).value);
  }

  /** If the seed and the path are the honest ones, so are the claimed root and the proof. */
  lemma {:induction false} HonestParts(h: HashFn, m: nat, oldRoot: Digest, lines: seq<Bytes>, proof: seq<Digest>)
    requires 0 < m < |lines| && FitsBase(h, m, Leaves(h, lines), proof)
    requires HonestAtBase(h, m, Leaves(h, lines), oldRoot, proof)
    requires ClimbLeft(h, Seed(m, oldRoot, proof), ProofPath(h, m, Leaves(h, lines), proof)) == oldRoot
    ensures oldRoot == TreeHash(h, lines[..m]) && Value(proof) == ConsistencyProof(h, m, lines)
  {
    hide Directions, PairUp, Base, Path, Fold, Leaves, Siblings, Sides, IsPow2, TreeHash, ConsistencyProof, ClimbLeft,
      ProofPath;
    var (odd, base) := Base(h, m, Leaves(h, lines));
    var path := Path(h, base, odd - 1);
    RootsAtBase(h, m, lines);
    ClimbLeftReachesOldRoot(h, base, odd - 1, base[odd - 1]);
    ProofShape(h, m, lines);
    ProofPathParts(h, m, Leaves(h, lines), proof);
    if IsPow2(m) {
      AddNothing(Siblings(path));
    } else {
      assert proof == [proof[0]] + proof[1..];
    }
  }

  /** The claimed root is the root of the first m lines, and the proof is the generated one. */
  predicate Honest(h: HashFn, m: nat, oldRoot: Digest, lines: seq<Bytes>, proof: seq<Digest>)
    requires m <= |lines|
  {
    oldRoot == TreeHash(h, lines[..m]) && Value(proof) == ConsistencyProof(h, m, lines)
  }

  predicate Deceives(h: HashFn, m: nat, oldRoot: Digest, lines: seq<Bytes>, proof: seq<Digest>)
    requires m <= |lines|
  {
    Accepts(h, m, |lines|, oldRoot, TreeHash(h, lines), proof) && !Honest(h, m, oldRoot, lines, proof)
  }

  /** Otherwise the proof climbs to the new root along a path that is not the honest one. */
  lemma {:induction false} DishonestParts(h: HashFn, m: nat, oldRoot: Digest, lines: seq<Bytes>, proof: seq<Digest>)
    requires 0 < m < |lines| && Deceives(h, m, oldRoot, lines, proof)
    ensures var level := Leaves(h, lines);
      && FitsBase(h, m, level, proof)
      && !HonestAtBase(h, m, level, oldRoot, proof)
      && Climb(h, Seed(m, oldRoot, proof), ProofPath(h, m, level, proof)) == TreeHash(h, lines)
  {
    hide Accepts, Directions, Climb, Leaves, TreeHash, ConsistencyProof, ProofPath, FitsBase, Seed, HonestAtBase;
    AcceptsAsClimb(h, m, Leaves(h, lines), oldRoot, TreeHash(h, lines), proof);
    if HonestAtBase(h, m, Leaves(h, lines), oldRoot, proof) {
      HonestParts(h, m, oldRoot, lines, proof);
    }
  }

  /**
   * Soundness against the new export alone: from an accepted proof of a claimed old root to the true new root that is
   * not the honest one, the collision is computed.
   */
  function ConsistencyCollision(h: HashFn, m: nat, oldRoot: Digest, lines: seq<Bytes>, proof: seq<Digest>)
      : (c: Collision)
    requires 0 < m < |lines| && Deceives(h, m, oldRoot, lines, proof)
    ensures IsCollision(h, c)
  {
    DishonestMisleads(h, m, oldRoot, lines, proof);
    BaseCollision(h, Base(h, m, Leaves(h, lines)), Seed(m, oldRoot, proof), ProofPath(h, m, Leaves(h, lines), proof))
  }

  /** A path that misleads at the base level, where the last old node is the leaf. */
  predicate MisleadsAtBase(h: HashFn, at: (nat, seq<Digest>), leaf: Digest, path: seq<Step>) {
    0 < at.0 <= |at.1| && Misleads(h, at.1, at.0 - 1, leaf, path)
  }

  function BaseCollision(h: HashFn, at: (nat, seq<Digest>), leaf: Digest, path: seq<Step>): (c: Collision)
    requires MisleadsAtBase(h, at, leaf, path)
    ensures IsCollision(h, c)
  {
    PathCollision(h, at.1, at.0 - 1, leaf, path)
  }

  lemma {:induction false} DishonestMisleads(h: HashFn, m: nat, oldRoot: Digest, lines: seq<Bytes>, proof: seq<Digest>)
    requires 0 < m < |lines| && Deceives(h, m, oldRoot, lines, proof)
    ensures proof != [] && FitsBase(h, m, Leaves(h, lines), proof)
    ensures MisleadsAtBase(
      h, Base(h, m, Leaves(h, lines)), Seed(m, oldRoot, proof), ProofPath(h, m, Leaves(h, lines), proof))
  {
    hide Accepts, Directions, Climb, PairUp, Base, Path, Fold, Leaves, Sides, Siblings, TreeHash, ConsistencyProof,
      ProofPath, Seed, Deceives;
    DishonestParts(h, m, oldRoot, lines, proof);
    RootsAtBase(h, m, lines);
    ProofPathParts(h, m, Leaves(h, lines), proof);
  }

  /**
   * Acceptance is exactly honesty, up to a collision computed from the dishonest claim; in equal sizes even without.
   */
  lemma {:induction false} ConsistencyExact(h: HashFn, m: nat, oldRoot: Digest, lines: seq<Bytes>, proof: seq<Digest>)
    requires 0 < m <= |lines|
    ensures Honest(h, m, oldRoot, lines, proof) ==> Accepts(h, m, |lines|, oldRoot, TreeHash(h, lines), proof)
    ensures Deceives(h, m, oldRoot, lines, proof) ==>
      m < |lines| && IsCollision(h, ConsistencyCollision(h, m, oldRoot, lines, proof))
  {
    ConsistencyComplete(h, m, lines);
    if m == |lines| {
      assert lines[..m] == lines;
    }
  }

  /** A consistency proof accepted between two exports although the older is not a prefix of the newer. */
  predicate Rewrites(h: HashFn, older: seq<Bytes>, newer: seq<Bytes>, proof: seq<Digest>)
    requires |older| <= |newer|
  {
    && Accepts(h, |older|, |newer|, TreeHash(h, older), TreeHash(h, newer), proof)
    && older != newer[..|older|]
  }

  /** Append-only: exports joined by an accepted proof are a prefix and its extension, or a collision is computed. */
  function AppendOnlyCollision(h: HashFn, older: seq<Bytes>, newer: seq<Bytes>, proof: seq<Digest>): (c: Collision)
    requires |older| <= |newer| && Rewrites(h, older, newer, proof)
    ensures IsCollision(h, c)
  {
    hide ConsistencyProof, TreeHash, NodeHash;
    var prefix := newer[..|older|];
    if |older| == |newer| then
      assert prefix == newer;
      RootCollision(h, older, newer)
    else if TreeHash(h, older) == TreeHash(h, prefix) then
      RootCollision(h, older, prefix)
    else
      assert older == [] ==> prefix == older;
      ConsistencyCollision(h, |older|, TreeHash(h, older), newer, proof)
  }

  /** The sizes alone fix the length of any proof that can be accepted, and it is logarithmic. */
  lemma AcceptedLength(h: HashFn, m: nat, lines: seq<Bytes>, oldRoot: Digest, newRoot: Digest, proof: seq<Digest>)
    requires 0 < m < |lines|
    requires Accepts(h, m, |lines|, oldRoot, newRoot, proof)
    ensures |proof| == |ConsistencyProof(h, m, lines).value|
    ensures |proof| <= BitLength(|lines| - 1) + 1
  {
    hide Directions, Climb, ClimbLeft, Attach, PairUp, Base, Path, Fold, Leaves, Siblings, IsPow2, Accepts, BitLength,
      NodeHash;
    var level := Leaves(h, lines);
    var (odd, base) := Base(h, m, level);
    ProofShape(h, m, lines);
    AcceptsAsClimb(h, m, level, oldRoot, newRoot, proof);
    PathHasDirections(h, base, odd - 1);
    DirectionsBound(|base|, odd - 1);
    BaseIsNoLarger(h, m, level);
  }

  lemma {:induction false} BaseIsNoLarger(h: HashFn, m: nat, level: seq<Digest>)
    requires 0 < m < |level|
    ensures BitLength(|Base(h, m, level).1| - 1) <= BitLength(|level| - 1)
    decreases m
  {
    if m % 2 == 0 {
      BaseIsNoLarger(h, m / 2, PairUp(h, level));
      assert |PairUp(h, level)| - 1 == (|level| - 1) / 2;
      BitLengthHalves(|level| - 1);
    }
  }
}
