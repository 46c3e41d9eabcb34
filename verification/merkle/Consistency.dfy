/** Consistency: the recursive generator, the bit-shifting verifier, and why they describe the same path. */
module Consistency {
  import opened Options
  import opened Bytes
  import opened Binary
  import opened MerkleTree
  import opened AuditPath

  // ---- the generator ----

  /** _subproof: SUBPROOF(m, D[n], b) of section 2.1.2 of RFC 6962. */
  function Subproof(h: HashFn, m: nat, lines: seq<Bytes>, b: bool): seq<Digest>
    requires 0 < m <= |lines|
    decreases |lines|
  {
    if m == |lines| then
      if b then [] else [TreeHash(h, lines)]
    else
      SplitByBitLengthIsSplit(|lines|);
      var k := SplitByBitLength(|lines|);
      if m <= k then Subproof(h, m, lines[..k], b) + [TreeHash(h, lines[k..])]
      else Subproof(h, m - k, lines[k..], false) + [TreeHash(h, lines[..k])]
  }

  /** consistency_proof: raises ValueError outside 0 <= m <= n. */
  function ConsistencyProof(h: HashFn, m: int, lines: seq<Bytes>): PyResult<seq<Digest>> {
    if m < 0 || m > |lines| then ValueError
    else if m == 0 || m == |lines| then Value([])
    else
      SplitByBitLengthIsSplit(|lines|);
      var k := SplitByBitLength(|lines|);
      if m <= k then Value(Subproof(h, m, lines[..k], true) + [TreeHash(h, lines[k..])])
      else Value(Subproof(h, m - k, lines[k..], false) + [TreeHash(h, lines[..k])])
  }

  /** The generator over a level of digests. */
  function LevelSubproof(h: HashFn, m: nat, level: seq<Digest>, b: bool): seq<Digest>
    requires 0 < m <= |level|
    decreases |level|
  {
    if m == |level| then
      if b then [] else [Fold(h, level)]
    else
      var k := Split(|level|);
      if m <= k then LevelSubproof(h, m, level[..k], b) + [Fold(h, level[k..])]
      else LevelSubproof(h, m - k, level[k..], false) + [Fold(h, level[..k])]
  }

  lemma LeavesSlices(h: HashFn, lines: seq<Bytes>, k: nat)
    requires k <= |lines|
    ensures Leaves(h, lines)[..k] == Leaves(h, lines[..k])
    ensures Leaves(h, lines)[k..] == Leaves(h, lines[k..])
  {
  }

  lemma {:induction false} SubproofIsLevelSubproof(h: HashFn, m: nat, lines: seq<Bytes>, b: bool)
    requires 0 < m <= |lines|
    ensures Subproof(h, m, lines, b) == LevelSubproof(h, m, Leaves(h, lines), b)
    decreases |lines|
  {
    hide TreeHash, Fold, Split, SplitByBitLength, Leaves, NodeHash;
    if m == |lines| {
      TreeHashIsFold(h, lines);
    } else {
      SplitByBitLengthIsSplit(|lines|);
      var k := Split(|lines|);
      LeavesSlices(h, lines, k);
      TreeHashIsFold(h, lines[..k]);
      TreeHashIsFold(h, lines[k..]);
      if m <= k {
        SubproofIsLevelSubproof(h, m, lines[..k], b);
      } else {
        SubproofIsLevelSubproof(h, m - k, lines[k..], false);
      }
    }
  }

  lemma LevelSubproofSplits(h: HashFn, m: nat, level: seq<Digest>, b: bool)
    requires 0 < m < |level|
    ensures var k := Split(|level|);
      LevelSubproof(h, m, level, b) ==
        if m <= k then LevelSubproof(h, m, level[..k], b) + [Fold(h, level[k..])]
        else LevelSubproof(h, m - k, level[k..], false) + [Fold(h, level[..k])]
  {
  }

  lemma LevelSubproofWhole(h: HashFn, level: seq<Digest>, b: bool)
    requires |level| > 0
    ensures LevelSubproof(h, |level|, level, b) == if b then [] else [Fold(h, level)]
  {
  }

  /** An even prefix may be halved together with the level: the proof is the same. */
  lemma {:induction false} SubproofHalves(h: HashFn, m: nat, level: seq<Digest>, b: bool)
    requires 0 < 2 * m <= |level|
    ensures LevelSubproof(h, 2 * m, level, b) == LevelSubproof(h, m, PairUp(h, level), b)
    decreases |level|
  {
    hide LevelSubproof, Fold, PairUp, NodeHash;
    var next := PairUp(h, level);
    if 2 * m == |level| {
      FoldOnce(h, level);
      LevelSubproofWhole(h, level, b);
      LevelSubproofWhole(h, next, b);
    } else {
      var j := Split(|next|);
      PairUpSlices(h, level, j);
      FoldOnce(h, level[..2 * j]);
      FoldOnce(h, level[2 * j..]);
      LevelSubproofSplits(h, 2 * m, level, b);
      LevelSubproofSplits(h, m, next, b);
      if m <= j {
        SubproofHalves(h, m, level[..2 * j], b);
      } else {
        SubproofHalves(h, m - j, level[2 * j..], false);
      }
    }
  }

  function Siblings(path: seq<Step>): (s: seq<Digest>)
    ensures |s| == |path|
    ensures forall j :: 0 <= j < |path| ==> s[j] == path[j].sibling
  {
    seq(|path|, j requires 0 <= j < |path| => path[j].sibling)
  }

  lemma SiblingsConcat(a: seq<Step>, b: seq<Step>)
    ensures Siblings(a + b) == Siblings(a) + Siblings(b)
  {
  }

  /** Appending one step to a path appends its sibling to a proof. */
  lemma AppendSibling(seed: seq<Digest>, path: seq<Step>, last: Step)
    ensures seed + Siblings(path) + [last.sibling] == seed + Siblings(path + [last])
  {
    SiblingsConcat(path, [last]);
    assert Siblings([last]) == [last.sibling];
    Assoc(seed, Siblings(path), [last.sibling]);
  }

  /** For an odd prefix the proof is the last old node followed by that node's audit path. */
  lemma {:induction false} SubproofIsPath(h: HashFn, m: nat, level: seq<Digest>, b: bool)
    requires 0 < m <= |level| && m % 2 == 1
    requires m < |level| || |level| == 1
    ensures LevelSubproof(h, m, level, b) ==
      (if b && m == 1 then [] else [level[m - 1]]) + Siblings(Path(h, level, m - 1))
    decreases |level|
  {
    hide *;
    if |level| == 1 {
      SubproofOfOne(h, level, b);
    } else if m <= Split(|level|) {
      SplitIsOneOrEven(|level|);
      SubproofIsPath(h, m, level[..Split(|level|)], b);
      SubproofLeft(h, m, level, b);
    } else {
      SplitIsOneOrEven(|level|);
      SubproofIsPath(h, m - Split(|level|), level[Split(|level|)..], false);
      SubproofRight(h, m, level, b);
    }
  }

  lemma SubproofOfOne(h: HashFn, level: seq<Digest>, b: bool)
    requires |level| == 1
    ensures LevelSubproof(h, 1, level, b) == (if b then [] else [level[0]]) + Siblings(Path(h, level, 0))
  {
    hide LevelSubproof, Path, Fold, Siblings;
    LevelSubproofWhole(h, level, b);
    RootPath(h, level, 0);
    assert Siblings([]) == [];
    FoldOfOne(h, level);
  }

  lemma {:induction false} SubproofLeft(h: HashFn, m: nat, level: seq<Digest>, b: bool)
    requires 0 < m < |level| && m <= Split(|level|)
    requires var left := level[..Split(|level|)];
      LevelSubproof(h, m, left, b) == (if b && m == 1 then [] else [left[m - 1]]) + Siblings(Path(h, left, m - 1))
    ensures LevelSubproof(h, m, level, b) ==
      (if b && m == 1 then [] else [level[m - 1]]) + Siblings(Path(h, level, m - 1))
  {
    hide *;
    var k := Split(|level|);
    LevelSubproofSplits(h, m, level, b);
    PathInLeftSubtree(h, level, m - 1);
    AppendSibling(if b && m == 1 then [] else [level[m - 1]], Path(h, level[..k], m - 1),
                  Step(Fold(h, level[k..]), Right));
  }

  lemma {:induction false} SubproofRight(h: HashFn, m: nat, level: seq<Digest>, b: bool)
    requires |level| > 1 && Split(|level|) < m < |level|
    requires var right, r := level[Split(|level|)..], m - Split(|level|);
      LevelSubproof(h, r, right, false) == [right[r - 1]] + Siblings(Path(h, right, r - 1))
    ensures LevelSubproof(h, m, level, b) == [level[m - 1]] + Siblings(Path(h, level, m - 1))
  {
    hide *;
    var k := Split(|level|);
    LevelSubproofSplits(h, m, level, b);
    PathInRightSubtree(h, level, m - 1);
    AppendSibling([level[m - 1]], Path(h, level[k..], m - 1 - k), Step(Fold(h, level[..k]), Left));
  }

  lemma FoldOfOne(h: HashFn, level: seq<Digest>)
    requires |level| == 1
    ensures Fold(h, level) == level[0]
  {
  }

  lemma SplitIsOneOrEven(n: nat)
    requires n > 1
    ensures if n == 2 then Split(n) == 1 else Split(n) % 2 == 0
  {
  }

  // ---- the verifier ----

  /** The inner loop: shift both indices while the first is even and not zero. */
  function SkipEven(fn: nat, sn: nat): (r: (nat, nat)) {
    if fn % 2 == 0 && fn != 0 then SkipEven(fn / 2, sn / 2) else (fn, sn)
  }

  /** The outer loop from a given state; None is the early return. */
  function Consume(h: HashFn, fn: Digest, sn: Digest, fnIndex: nat, snIndex: nat, proof: seq<Digest>)
    : Option<(Digest, Digest, nat)>
    decreases |proof|
  {
    if proof == [] then Some((fn, sn, snIndex))
    else if snIndex == 0 then None
    else if fnIndex % 2 == 1 || fnIndex == snIndex then
      var (f, s) := SkipEven(fnIndex, snIndex);
      Consume(h, NodeHash(h, proof[0], fn), NodeHash(h, proof[0], sn), f / 2, s / 2, proof[1..])
    else
      Consume(h, fn, NodeHash(h, sn, proof[0]), fnIndex / 2, snIndex / 2, proof[1..])
  }

  /** The first loop: shift both indices while the first is odd. */
  function SkipOdd(fn: nat, sn: nat): (r: (nat, nat)) {
    if fn % 2 == 1 then SkipOdd(fn / 2, sn / 2) else (fn, sn)
  }

  /** verify_consistency_proof on well-formed roots and nodes. */
  predicate Accepts(h: HashFn, m: int, n: int, oldRoot: Digest, newRoot: Digest, proof: seq<Digest>) {
    if m < 0 || n < 0 || m > n then false
    else if m == n then proof == [] && oldRoot == newRoot
    else if m == 0 then proof == [] && oldRoot == h([])
    else if proof == [] then false
    else
      var (fnIndex, snIndex) := SkipOdd(m - 1, n - 1);
      var r := if BitAnd(m, m - 1) == 0 then Consume(h, oldRoot, oldRoot, fnIndex, snIndex, proof)
               else Consume(h, proof[0], proof[0], fnIndex, snIndex, proof[1..]);
      r == Some((oldRoot, newRoot, 0))
  }

  method VerifyConsistencyProof(h: HashFn, oldSize: int, newSize: int, oldRoot: Bytes, newRoot: Bytes,
                                rawProof: seq<Bytes>)
    returns (r: PyResult<bool>)
    ensures r == ValueError <==> |oldRoot| != 32 || |newRoot| != 32 || exists node <- rawProof :: |node| != 32
    ensures r != ValueError ==>
      r == Value(Accepts(h, oldSize, newSize, Digest(oldRoot), Digest(newRoot),
                         seq(|rawProof|, j requires 0 <= j < |rawProof| => Digest(rawProof[j]))))
  {
    if |oldRoot| != 32 {
      return ValueError;
    }
    if |newRoot| != 32 {
      return ValueError;
    }
    var proof: seq<Digest> := [];
    for j := 0 to |rawProof|
      invariant |proof| == j
      invariant forall i :: 0 <= i < j ==> |rawProof[i]| == 32 && proof[i] == Digest(rawProof[i])
    {
      if |rawProof[j]| != 32 {
        return ValueError;
      }
      proof := proof + [Digest(rawProof[j])];
    }
    assert proof == seq(|rawProof|, j requires 0 <= j < |rawProof| => Digest(rawProof[j]));
    var ok := VerifyDigests(h, oldSize, newSize, Digest(oldRoot), Digest(newRoot), proof);
    return Value(ok);
  }

  /** The body of verify_consistency_proof after the conversions. */
  method VerifyDigests(h: HashFn, m: int, n: int, oldRoot: Digest, newRoot: Digest, proof: seq<Digest>)
    returns (ok: bool)
    ensures ok == Accepts(h, m, n, oldRoot, newRoot, proof)
  {
    if m < 0 || n < 0 || m > n {
      return false;
    }
    if m == n {
      return |proof| == 0 && oldRoot == newRoot;
    }
    if m == 0 {
      return |proof| == 0 && oldRoot == h([]);
    }
    if |proof| == 0 {
      return false;
    }
    var proofIdx := 0;
    var fn, sn := oldRoot, oldRoot;
    if BitAnd(m, m - 1) != 0 {
      fn := proof[proofIdx];
      sn := proof[proofIdx];
      proofIdx := proofIdx + 1;
    }
    var fnIndex: nat, snIndex: nat := m - 1, n - 1;
    while fnIndex % 2 == 1
      invariant SkipOdd(fnIndex, snIndex) == SkipOdd(m - 1, n - 1)
      decreases fnIndex
    {
      fnIndex := fnIndex / 2;
      snIndex := snIndex / 2;
    }
    ghost var outcome := Consume(h, fn, sn, fnIndex, snIndex, proof[proofIdx..]);
    for j := proofIdx to |proof|
      invariant Consume(h, fn, sn, fnIndex, snIndex, proof[j..]) == outcome
    {
      var node := proof[j];
      assert proof[j..][1..] == proof[j + 1..];
      if snIndex == 0 {
        return false;
      }
      if fnIndex % 2 == 1 || fnIndex == snIndex {
        fn := NodeHash(h, node, fn);
        sn := NodeHash(h, node, sn);
        ghost var skipped := SkipEven(fnIndex, snIndex);
        while fnIndex % 2 == 0 && fnIndex != 0
          invariant SkipEven(fnIndex, snIndex) == skipped
        {
          fnIndex := fnIndex / 2;
          snIndex := snIndex / 2;
        }
      } else {
        sn := NodeHash(h, sn, node);
      }
      fnIndex := fnIndex / 2;
      snIndex := snIndex / 2;
    }
    return fn == oldRoot && sn == newRoot && snIndex == 0;
  }
}
