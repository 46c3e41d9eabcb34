/** keccak256: lanes as unbounded integers, every round in place, against the simultaneous definitions. */
module Keccak {
  import opened Binary
  import opened IntBits
  import opened KeccakSpec

  const MASK := 0xFFFF_FFFF_FFFF_FFFF

  predicate IsLane(n: int) {
    0 <= n < Pow2(64)
  }

  /** An integer below 2^64 holding the bits of the lane at (x, y). */
  predicate LaneHolds(n: int, a: Bits, x: int, y: int) {
    IsLane(n) && forall z: nat :: z < 64 ==> Bit(n, z) == a(x, y, z)
  }

  predicate Square(s: array2<int>) {
    s.Length0 == 5 && s.Length1 == 5
  }

  ghost predicate Holds(s: array2<int>, a: Bits)
    requires Square(s)
    reads s
  {
    forall x, y :: 0 <= x < 5 && 0 <= y < 5 ==> LaneHolds(s[x, y], a, x, y)
  }

  // ---- lane operations ----

  /** The source's rotation: one masked shift up and one shift down. */
  function RotateLeft(n: nat, r: nat): nat
    requires r <= 64
  {
    Or(BitAnd(Shl(n, r), MASK), Shr(n, 64 - r))
  }

  lemma {:induction false} RotatedBit(n: nat, r: nat, z: nat)
    requires IsLane(n) && 0 < r < 64 && z < 64
    ensures Bit(RotateLeft(n, r), z) == Bit(n, (z - r) % 64)
  {
    hide Or, BitAnd, Shl, Shr, Bit, Pow2;
    var up, down := Shl(n, r), Shr(n, 64 - r);
    SmallPowers();
    OrBit(BitAnd(up, MASK), down, z);
    AndBit(up, MASK, z);
    MaskBit(64, z);
    ShlBit(n, r, z);
    ShrBit(n, 64 - r, z);
    if z >= r {
      HighBit(n, 64, z + 64 - r);
      assert (z - r) % 64 == z - r;
    } else {
      assert (z - r) % 64 == z - r + 64;
    }
  }

  lemma {:induction false} ShrBound(n: nat, k: nat, m: nat)
    requires n < Pow2(k + m)
    ensures Shr(n, k) < Pow2(m)
    decreases k
  {
    if k > 0 {
      ShrBound(n / 2, k - 1, m);
    }
  }

  lemma RotatedLane(n: nat, r: nat)
    requires IsLane(n) && 0 < r < 64
    ensures IsLane(RotateLeft(n, r))
  {
    hide Or, BitAnd, Shl, Shr, Bit, Pow2;
    var up, down := Shl(n, r), Shr(n, 64 - r);
    SmallPowers();
    AndBound(up, MASK);
    ShrBound(n, 64 - r, r);
    PowersGrow(r, 64);
    OrBound(BitAnd(up, MASK), down, 64);
  }

  /** Shifting positions: the rotated lane at z is the lane at z - r. */
  lemma RotateHolds(n: int, a: Bits, x: int, y: int, r: nat, b: Bits, u: int, v: int)
    requires LaneHolds(n, a, x, y) && 0 < r < 64
    requires forall z: nat :: z < 64 ==> b(u, v, z) == a(x, y, (z - r) % 64)
    ensures LaneHolds(RotateLeft(n, r), b, u, v)
  {
    hide RotateLeft, Bit;
    RotatedLane(n, r);
    forall z: nat | z < 64
      ensures Bit(RotateLeft(n, r), z) == b(u, v, z)
    {
      RotatedBit(n, r, z);
      assert Bit(n, (z - r) % 64) == a(x, y, (z - r) % 64);
    }
  }

  lemma XorHolds(m: int, a: Bits, x: int, y: int, n: int, b: Bits, u: int, v: int, c: Bits, p: int, q: int)
    requires LaneHolds(m, a, x, y) && LaneHolds(n, b, u, v)
    requires forall z: nat :: z < 64 ==> c(p, q, z) == (a(x, y, z) != b(u, v, z))
    ensures LaneHolds(Xor(m, n), c, p, q)
  {
    hide Xor, Bit, Pow2;
    XorBound(m, n, 64);
    forall z: nat | z < 64
      ensures Bit(Xor(m, n), z) == c(p, q, z)
    {
      XorBit(m, n, z);
    }
  }

  // ---- theta ----

  /** The parity of each column, and what theta adds to each column. */
  function Columns(a: Bits): Bits {
    (x, y, z) => Parity(a, x, z)
  }

  function Effect(a: Bits): Bits {
    (x, y, z) => Parity(a, (x - 1) % 5, z) != Parity(a, (x + 1) % 5, (z - 1) % 64)
  }

  /** Theta with the columns' parities taken first. */
  method ThetaPass(state: array2<int>, ghost a: Bits)
    requires Square(state) && Holds(state, a)
    modifies state
    ensures Holds(state, Theta(a))
  {
    hide LaneHolds;
    var c: seq<int> := [];
    for x := 0 to 5
      invariant |c| == x
      invariant forall i :: 0 <= i < x ==> LaneHolds(c[i], Columns(a), i, 0)
      invariant Holds(state, a)
    {
      LanesHeld(state, a, x);
      var parity := Xor(Xor(Xor(Xor(state[x, 0], state[x, 1]), state[x, 2]), state[x, 3]), state[x, 4]);
      ParityHolds(state, a, x);
      c := c + [parity];
    }
    var d: seq<int> := [];
    for x := 0 to 5
      invariant |d| == x && Holds(state, a)
      invariant forall i :: 0 <= i < x ==> LaneHolds(d[i], Effect(a), i, 0)
    {
      ParityIsLane(c, a, x);
      EffectHolds(c, a, x);
      d := d + [Xor(c[(x - 1) % 5], RotateLeft(c[(x + 1) % 5], 1))];
    }
    for x := 0 to 5
      invariant forall i, j :: 0 <= i < x && 0 <= j < 5 ==> LaneHolds(state[i, j], Theta(a), i, j)
      invariant forall i, j :: x <= i < 5 && 0 <= j < 5 ==> LaneHolds(state[i, j], a, i, j)
    {
      for y := 0 to 5
        invariant forall i, j :: 0 <= i < x && 0 <= j < 5 ==> LaneHolds(state[i, j], Theta(a), i, j)
        invariant forall i, j :: x < i < 5 && 0 <= j < 5 ==> LaneHolds(state[i, j], a, i, j)
        invariant forall j :: 0 <= j < y ==> LaneHolds(state[x, j], Theta(a), x, j)
        invariant forall j :: y <= j < 5 ==> LaneHolds(state[x, j], a, x, j)
      {
        ThetaLane(state[x, y], d[x], a, x, y);
        state[x, y] := Xor(state[x, y], d[x]);
      }
    }
  }

  lemma LanesHeld(state: array2<int>, a: Bits, x: int)
    requires Square(state) && Holds(state, a) && 0 <= x < 5
    ensures forall y :: 0 <= y < 5 ==> IsLane(state[x, y])
  {
  }

  lemma ParityHolds(state: array2<int>, a: Bits, x: int)
    requires Square(state) && Holds(state, a) && 0 <= x < 5
    requires forall y :: 0 <= y < 5 ==> IsLane(state[x, y])
    ensures LaneHolds(
      Xor(Xor(Xor(Xor(state[x, 0], state[x, 1]), state[x, 2]), state[x, 3]), state[x, 4]), Columns(a), x, 0)
  {
    hide LaneHolds, Xor;
    var b1: Bits := (x, y, z) => a(x, 0, z) != a(x, 1, z);
    var b2: Bits := (x, y, z) => b1(x, y, z) != a(x, 2, z);
    var b3: Bits := (x, y, z) => b2(x, y, z) != a(x, 3, z);
    var s1 := Xor(state[x, 0], state[x, 1]);
    XorHolds(state[x, 0], a, x, 0, state[x, 1], a, x, 1, b1, x, 0);
    var s2 := Xor(s1, state[x, 2]);
    XorHolds(s1, b1, x, 0, state[x, 2], a, x, 2, b2, x, 0);
    var s3 := Xor(s2, state[x, 3]);
    XorHolds(s2, b2, x, 0, state[x, 3], a, x, 3, b3, x, 0);
    XorHolds(s3, b3, x, 0, state[x, 4], a, x, 4, Columns(a), x, 0);
  }

  lemma {:induction false} ParityIsLane(c: seq<int>, a: Bits, x: int)
    requires |c| == 5 && 0 <= x < 5 && forall i :: 0 <= i < 5 ==> LaneHolds(c[i], Columns(a), i, 0)
    ensures IsLane(c[(x - 1) % 5]) && IsLane(c[(x + 1) % 5]) && IsLane(RotateLeft(c[(x + 1) % 5], 1))
  {
    RotatedLane(c[(x + 1) % 5], 1);
  }

  lemma {:induction false} EffectHolds(c: seq<int>, a: Bits, x: int)
    requires |c| == 5 && 0 <= x < 5 && forall i :: 0 <= i < 5 ==> LaneHolds(c[i], Columns(a), i, 0)
    requires IsLane(c[(x - 1) % 5]) && IsLane(c[(x + 1) % 5])
    ensures LaneHolds(Xor(c[(x - 1) % 5], RotateLeft(c[(x + 1) % 5], 1)), Effect(a), x, 0)
  {
    hide LaneHolds, Xor, RotateLeft, Parity;
    var before, after := (x - 1) % 5, (x + 1) % 5;
    var turned: Bits := (x, y, z) => Parity(a, x, (z - 1) % 64);
    RotateHolds(c[after], Columns(a), after, 0, 1, turned, after, 0);
    XorHolds(c[before], Columns(a), before, 0, RotateLeft(c[after], 1), turned, after, 0, Effect(a), x, 0);
  }

  lemma {:induction false} ThetaLane(lane: int, d: int, a: Bits, x: int, y: int)
    requires LaneHolds(lane, a, x, y) && LaneHolds(d, Effect(a), x, 0)
    ensures IsLane(lane) && IsLane(d) && LaneHolds(Xor(lane, d), Theta(a), x, y)
  {
    hide Xor, Parity;
    XorHolds(lane, a, x, y, d, Effect(a), x, 0, Theta(a), x, y);
  }

  // ---- rho and pi ----

  /** The walk carries one pending lane and overwrites the next; after 24 steps every lane but the origin has moved. */
  method RhoPiPass(state: array2<int>, ghost a: Bits)
    requires Square(state) && Holds(state, a)
    modifies state
    ensures Holds(state, Pi(Rho(a)))
  {
    hide LaneHolds, Rho, Pi, Visit, Triangle, Walk, RotateLeft, Moved;
    NoneMoved(state, a);
    WalkStep(0);
    var x, y, curr, rot := 1, 0, state[1, 0], 0;
    for t := 0 to 24
      invariant 0 <= x < 5 && 0 <= y < 5 && (x, y) == Walk(t)
      invariant LaneHolds(curr, a, x, y)
      invariant Midway(state, a, t)
    {
      rot := Triangle(t) % 64;
      var nx, ny := y, (2 * x + 3 * y) % 5;
      var nxt := state[nx, ny];
      MoveLane(curr, a, x, y, t);
      state[nx, ny] := if rot != 0 then RotateLeft(curr, rot) else curr;
      NextMoved(t);
      WalkStep(t);
      x, y, curr := nx, ny, nxt;
    }
    AllMoved(state, a);
  }

  /** Lane (i, j) receives the lane that pi takes it from, at the step that visits that lane. */
  predicate Moved(i: int, j: int, t: nat) {
    (i, j) != (0, 0) && Visit(PiColumn(i, j), i, 0) < t
  }

  ghost predicate Midway(state: array2<int>, a: Bits, t: nat)
    requires Square(state)
    reads state
  {
    forall i, j :: 0 <= i < 5 && 0 <= j < 5 ==> LaneHolds(state[i, j], if Moved(i, j, t) then Pi(Rho(a)) else a, i, j)
  }

  lemma WalkStep(t: nat)
    ensures Walk(0) == (1, 0) && Walk(t + 1) == (Walk(t).1, (2 * Walk(t).0 + 3 * Walk(t).1) % 5)
  {
  }

  lemma {:induction false} MoveLane(curr: int, a: Bits, x: int, y: int, t: nat)
    requires t < 24 && (x, y) == Walk(t) && LaneHolds(curr, a, x, y)
    ensures IsLane(curr)
    ensures LaneHolds(
      if Triangle(t) % 64 != 0 then RotateLeft(curr, Triangle(t) % 64) else curr, Pi(Rho(a)), y, (2 * x + 3 * y) % 5)
  {
    hide RotateLeft, Bit, Walk, Visit, Triangle, Pi, Rho;
    WalkVisits(t);
    var nx, ny, rot := y, (2 * x + 3 * y) % 5, Triangle(t) % 64;
    forall z: nat | z < 64
      ensures Pi(Rho(a))(nx, ny, z) == a(x, y, (z - rot) % 64)
    {
      MovedBit(a, x, y, z);
    }
    if rot != 0 {
      RotateHolds(curr, a, x, y, rot, Pi(Rho(a)), nx, ny);
    }
  }

  lemma {:induction false} MovedBit(a: Bits, x: int, y: int, z: nat)
    requires 0 <= x < 5 && 0 <= y < 5 && z < 64
    ensures Pi(Rho(a))(y, (2 * x + 3 * y) % 5, z) == a(x, y, (z - Offset(x, y) % 64) % 64)
  {
    hide Offset, Pi, Rho;
    var j := (2 * x + 3 * y) % 5;
    SourceLane(y, j, x, y);
    PiBit(Rho(a), y, j, z);
    RhoBit(a, x, y, z);
    ShiftModulo(z, Offset(x, y));
  }

  lemma PiBit(a: Bits, x: int, y: int, z: int)
    ensures Pi(a)(x, y, z) == a(PiColumn(x, y), x, z)
  {
    hide PiColumn;
  }

  lemma RhoBit(a: Bits, x: int, y: int, z: int)
    ensures Rho(a)(x, y, z) == a(x, y, (z - Offset(x, y)) % 64)
  {
    hide Offset;
  }

  lemma ShiftModulo(z: nat, n: nat)
    ensures (z - n) % 64 == (z - n % 64) % 64
  {
    assert n == 64 * (n / 64) + n % 64;
  }

  /** The walk's step inverts pi's choice of lane. */
  lemma SourceLane(i: int, j: int, x: int, y: int)
    requires 0 <= i < 5 && 0 <= j < 5 && 0 <= x < 5 && 0 <= y < 5
    ensures (x, y) == (PiColumn(i, j), i) <==> (i, j) == (y, (2 * x + 3 * y) % 5)
  {
    BackToTarget(i, j);
    BackToSource(x, i);
  }

  lemma BackToTarget(i: int, j: int)
    requires 0 <= i < 5 && 0 <= j < 5
    ensures (2 * PiColumn(i, j) + 3 * i) % 5 == j
  {
    var source, k := (i + 3 * j) % 5, (i + 3 * j) / 5;
    assert 2 * source + 3 * i == 5 * (i + j - 2 * k) + j;
  }

  lemma BackToSource(x: int, i: int)
    requires 0 <= x < 5 && 0 <= i < 5
    ensures PiColumn(i, (2 * x + 3 * i) % 5) == x
  {
    var target, k := (2 * x + 3 * i) % 5, (2 * x + 3 * i) / 5;
    assert i + 3 * target == 5 * (2 * i + x - 3 * k) + x;
  }

  lemma {:induction false} NextMoved(t: nat)
    requires t < 24
    ensures forall i, j :: 0 <= i < 5 && 0 <= j < 5 ==>
      (Moved(i, j, t + 1) <==> Moved(i, j, t) || (i, j) == Walk(t + 1))
    ensures !Moved(Walk(t + 1).0, Walk(t + 1).1, t)
  {
    hide Moved, Walk;
    WalkVisits(t);
    WalkStep(t);
    forall i, j | 0 <= i < 5 && 0 <= j < 5
      ensures Moved(i, j, t + 1) <==> Moved(i, j, t) || (i, j) == Walk(t + 1)
      ensures (i, j) == Walk(t + 1) ==> !Moved(i, j, t)
    {
      MovedWhen(i, j, t);
    }
  }

  lemma MovedWhen(i: int, j: int, t: nat)
    requires 0 <= i < 5 && 0 <= j < 5 && t < 24
    ensures Moved(i, j, t + 1) <==> Moved(i, j, t) || (i, j) == Walk(t + 1)
    ensures (i, j) == Walk(t + 1) ==> !Moved(i, j, t)
  {
    hide Visit, Walk, PiColumn;
    WalkVisits(t);
    WalkStep(t);
    SourceLane(i, j, Walk(t).0, Walk(t).1);
    if (i, j) != (0, 0) {
      SourceVisited(i, j);
    } else {
      OriginIsItsSource(Walk(t).0, Walk(t).1);
    }
  }

  /** The lane that pi takes for (i, j) is not the origin, and the walk visits it. */
  lemma {:induction false} SourceVisited(i: int, j: int)
    requires 0 <= i < 5 && 0 <= j < 5 && (i, j) != (0, 0)
    ensures Visit(PiColumn(i, j), i, 0) < 24 && Walk(Visit(PiColumn(i, j), i, 0)) == (PiColumn(i, j), i)
  {
    hide Visit, Walk, PiColumn;
    PiColumnRange(i, j);
    if i == 0 && PiColumn(i, j) == 0 {
      SourceLane(i, j, 0, 0);
    }
    EveryLaneVisited(PiColumn(i, j), i);
  }

  lemma PiColumnRange(i: int, j: int)
    ensures 0 <= PiColumn(i, j) < 5
  {
  }

  /** No other lane moves to the origin. */
  lemma {:induction false} OriginIsItsSource(x: int, y: int)
    requires 0 <= x < 5 && 0 <= y < 5 && (x, y) != (0, 0)
    ensures (y, (2 * x + 3 * y) % 5) != (0, 0)
  {
    SourceLane(0, 0, x, y);
  }

  lemma NoneMoved(state: array2<int>, a: Bits)
    requires Square(state) && Holds(state, a)
    ensures Midway(state, a, 0)
  {
  }

  lemma AllMoved(state: array2<int>, a: Bits)
    requires Square(state) && Midway(state, a, 24)
    ensures Holds(state, Pi(Rho(a)))
  {
    hide Moved, LaneHolds, Pi, Rho;
    forall i, j | 0 <= i < 5 && 0 <= j < 5
      ensures LaneHolds(state[i, j], Pi(Rho(a)), i, j)
    {
      EndsMoved(i, j);
      if (i, j) == (0, 0) {
        OriginStays(state[0, 0], a);
      }
    }
  }

  lemma {:induction false} EndsMoved(i: int, j: int)
    requires 0 <= i < 5 && 0 <= j < 5
    ensures Moved(i, j, 24) <==> (i, j) != (0, 0)
  {
    hide Visit, PiColumn;
    if (i, j) != (0, 0) {
      SourceVisited(i, j);
    }
  }

  lemma OriginStays(lane: int, a: Bits)
    requires LaneHolds(lane, a, 0, 0)
    ensures LaneHolds(lane, Pi(Rho(a)), 0, 0)
  {
    hide Bit, Visit, Pi, Rho;
    forall z: nat | z < 64
      ensures Pi(Rho(a))(0, 0, z) == a(0, 0, z)
    {
      PiBit(Rho(a), 0, 0, z);
      RhoBit(a, 0, 0, z);
    }
  }

  // ---- chi and iota ----

  /** Chi row by row, on a copy of the row; the complement is a negative integer until it is masked by a lane. */
  method ChiPass(state: array2<int>, ghost a: Bits)
    requires Square(state) && Holds(state, a)
    modifies state
    ensures Holds(state, Chi(a))
  {
    hide LaneHolds;
    for y := 0 to 5
      invariant forall i, j :: 0 <= i < 5 && 0 <= j < 5 ==> LaneHolds(state[i, j], if j < y then Chi(a) else a, i, j)
    {
      var orig := [state[0, y], state[1, y], state[2, y], state[3, y], state[4, y]];
      assert forall i :: 0 <= i < 5 ==> LaneHolds(orig[i], a, i, y);
      for x := 0 to 5
        invariant forall i, j :: 0 <= i < 5 && 0 <= j < 5 && j != y ==>
          LaneHolds(state[i, j], if j < y then Chi(a) else a, i, j)
        invariant forall i :: 0 <= i < x ==> LaneHolds(state[i, y], Chi(a), i, y)
      {
        ChiHolds(orig, a, x, y);
        state[x, y] := Xor(orig[x], BitAnd(Not(orig[(x + 1) % 5]), orig[(x + 2) % 5]));
      }
    }
  }

  lemma ChiHolds(orig: seq<int>, a: Bits, x: int, y: int)
    requires |orig| == 5 && 0 <= x < 5 && forall i :: 0 <= i < 5 ==> LaneHolds(orig[i], a, i, y)
    ensures IsLane(orig[x]) && IsLane(orig[(x + 2) % 5])
    ensures LaneHolds(Xor(orig[x], BitAnd(Not(orig[(x + 1) % 5]), orig[(x + 2) % 5])), Chi(a), x, y)
  {
    hide Bit, BitAnd, Not, Xor, Chi;
    var x1, x2 := (x + 1) % 5, (x + 2) % 5;
    var masked: Bits := (x, y, z) => !a((x + 1) % 5, y, z) && a((x + 2) % 5, y, z);
    var mask := BitAnd(Not(orig[x1]), orig[x2]);
    assert LaneHolds(mask, masked, x, y) by {
      AndBound(Not(orig[x1]), orig[x2]);
      forall z: nat | z < 64
        ensures Bit(mask, z) == masked(x, y, z)
      {
        AndBit(Not(orig[x1]), orig[x2], z);
        NotBit(orig[x1], z);
        assert LaneHolds(orig[x1], a, x1, y) && LaneHolds(orig[x2], a, x2, y);
      }
    }
    forall z: nat | z < 64
      ensures Chi(a)(x, y, z) == (a(x, y, z) != masked(x, y, z))
    {
      ChiBit(a, x, y, z);
    }
    XorHolds(orig[x], a, x, y, mask, masked, x, y, Chi(a), x, y);
  }

  lemma ChiBit(a: Bits, x: int, y: int, z: int)
    ensures Chi(a)(x, y, z) == (a(x, y, z) != (!a((x + 1) % 5, y, z) && a((x + 2) % 5, y, z)))
  {
  }

  method IotaPass(state: array2<int>, round: nat, ghost a: Bits)
    requires Square(state) && Holds(state, a) && round < 24
    modifies state
    ensures Holds(state, Iota(a, round))
  {
    hide LaneHolds, Iota, RC;
    IotaHolds(state[0, 0], a, round);
    OthersStay(state, a, round);
    state[0, 0] := Xor(state[0, 0], RC(round));
  }

  lemma IotaHolds(lane: int, a: Bits, round: nat)
    requires LaneHolds(lane, a, 0, 0) && round < 24
    ensures IsLane(lane) && LaneHolds(Xor(lane, RC(round)), Iota(a, round), 0, 0)
  {
    hide Bit, RC, RoundConstantBit;
    var constant: Bits := (x, y, z) => RoundConstantBit(round, z);
    TableIsGenerated(round, 0);
    forall z: nat | z < 64
      ensures Bit(RC(round), z) == constant(0, 0, z)
    {
      TableIsGenerated(round, z);
    }
    XorHolds(lane, a, 0, 0, RC(round), constant, 0, 0, Iota(a, round), 0, 0);
  }

  lemma OthersStay(state: array2<int>, a: Bits, round: nat)
    requires Square(state) && Holds(state, a)
    ensures forall i, j :: 0 <= i < 5 && 0 <= j < 5 && (i, j) != (0, 0) ==> LaneHolds(state[i, j], Iota(a, round), i, j)
  {
    hide Bit, RoundConstantBit;
  }

  /** The 24 rounds of keccak256, one after the other in place. */
  method Permute(state: array2<int>, ghost a: Bits)
    requires Square(state) && Holds(state, a)
    modifies state
    ensures Holds(state, Rounds(a, 24))
  {
    hide Holds;
    for round := 0 to 24
      invariant Holds(state, Rounds(a, round))
    {
      ghost var before := Rounds(a, round);
      ThetaPass(state, before);
      RhoPiPass(state, Theta(before));
      ChiPass(state, Pi(Rho(Theta(before))));
      IotaPass(state, round, Chi(Pi(Rho(Theta(before)))));
    }
  }
}
