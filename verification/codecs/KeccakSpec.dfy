/** Section 3.2 of FIPS 202, bit by bit: the five step mappings as simultaneous definitions. */
module KeccakSpec {
  import opened Binary
  import opened IntBits

  /** A state array A[x, y, z]: 5 by 5 lanes of 64 bits. */
  type Bits = (int, int, int) -> bool

  function Parity(a: Bits, x: int, z: int): bool {
    a(x, 0, z) != (a(x, 1, z) != (a(x, 2, z) != (a(x, 3, z) != a(x, 4, z))))
  }

  /** Section 3.2.1. */
  function Theta(a: Bits): Bits {
    (x, y, z) => a(x, y, z) != (Parity(a, (x - 1) % 5, z) != Parity(a, (x + 1) % 5, (z - 1) % 64))
  }

  /** The lane that step t of section 3.2.2 visits. */
  function Walk(t: nat): (int, int) {
    if t == 0 then (1, 0) else (Walk(t - 1).1, (2 * Walk(t - 1).0 + 3 * Walk(t - 1).1) % 5)
  }

  /** The first step from t on that visits a lane; 24 if none does. */
  function Visit(x: int, y: int, t: nat): (v: nat)
    requires t <= 24
    ensures v <= 24
    decreases 24 - t
  {
    if t == 24 || Walk(t) == (x, y) then t else Visit(x, y, t + 1)
  }

  function Triangle(t: nat): nat {
    (t + 1) * (t + 2) / 2
  }

  function Offset(x: int, y: int): nat {
    if x == 0 && y == 0 then 0 else Triangle(Visit(x, y, 0))
  }

  /** Section 3.2.2. */
  function Rho(a: Bits): Bits {
    (x, y, z) => a(x, y, (z - Offset(x, y)) % 64)
  }

  /** Section 3.2.3. */
  function Pi(a: Bits): Bits {
    (x, y, z) => a(PiColumn(x, y), x, z)
  }

  function PiColumn(x: int, y: int): int {
    (x + 3 * y) % 5
  }

  /** Section 3.2.4. */
  function Chi(a: Bits): Bits {
    (x, y, z) => a(x, y, z) != (!a((x + 1) % 5, y, z) && a((x + 2) % 5, y, z))
  }

  /** The feedback register of section 3.2.5 and one clock of it. */
  datatype Register = Register(r0: bool, r1: bool, r2: bool, r3: bool, r4: bool, r5: bool, r6: bool, r7: bool)

  function Next(r: Register): Register {
    Register(r.r7, r.r0, r.r1, r.r2, r.r3 != r.r7, r.r4 != r.r7, r.r5 != r.r7, r.r6)
  }

  function Clock(t: nat): Register {
    if t == 0 then Register(true, false, false, false, false, false, false, false) else Next(Clock(t - 1))
  }

  function RoundBit(t: nat): bool {
    t % 255 == 0 || Clock(t % 255).r0
  }

  predicate RoundConstantBit(round: nat, z: int) {
    exists j: nat :: j <= 6 && z == Pow2(j) - 1 && RoundBit(j + 7 * round)
  }

  /** Section 3.2.5. */
  function Iota(a: Bits, round: nat): Bits {
    (x, y, z) => a(x, y, z) != (x == 0 && y == 0 && RoundConstantBit(round, z))
  }

  function Round(a: Bits, round: nat): Bits {
    Iota(Chi(Pi(Rho(Theta(a)))), round)
  }

  /** The first n rounds of Keccak-f[1600]. */
  function Rounds(a: Bits, n: nat): Bits {
    if n == 0 then a else Round(Rounds(a, n - 1), n - 1)
  }

  // ---- the walk of rho ----

  /** The walk's lanes in order; the last step closes the cycle. */
  function Lane(t: nat): (int, int) {
    match t
    case 0 => (1, 0)
    case 1 => (0, 2)
    case 2 => (2, 1)
    case 3 => (1, 2)
    case 4 => (2, 3)
    case 5 => (3, 3)
    case 6 => (3, 0)
    case 7 => (0, 1)
    case 8 => (1, 3)
    case 9 => (3, 1)
    case 10 => (1, 4)
    case 11 => (4, 4)
    case 12 => (4, 0)
    case 13 => (0, 3)
    case 14 => (3, 4)
    case 15 => (4, 3)
    case 16 => (3, 2)
    case 17 => (2, 2)
    case 18 => (2, 0)
    case 19 => (0, 4)
    case 20 => (4, 2)
    case 21 => (2, 4)
    case 22 => (4, 1)
    case 23 => (1, 1)
    case _ => (1, 0)
  }

  /** The step that visits a lane: the inverse of the walk. */
  function Turn(x: int, y: int): nat {
    if x == 0 then (if y == 0 then 24 else if y == 1 then 7 else if y == 2 then 1 else if y == 3 then 13 else 19)
    else if x == 1 then (if y == 0 then 0 else if y == 1 then 23 else if y == 2 then 3 else if y == 3 then 8 else 10)
    else if x == 2 then (if y == 0 then 18 else if y == 1 then 2 else if y == 2 then 17 else if y == 3 then 4 else 21)
    else if x == 3 then (if y == 0 then 6 else if y == 1 then 9 else if y == 2 then 16 else if y == 3 then 5 else 14)
    else (if y == 0 then 12 else if y == 1 then 22 else if y == 2 then 20 else if y == 3 then 15 else 11)
  }

  lemma {:induction false} WalkIsLane(t: nat)
    requires t <= 24
    ensures Walk(t) == Lane(t)
  {
    hide Lane;
    if t == 0 {
      FirstLane();
    } else {
      WalkIsLane(t - 1);
      NextLane(t - 1);
    }
  }

  lemma FirstLane()
    ensures Lane(0) == Lane(24) == (1, 0)
  {
  }

  lemma NextLane(t: nat)
    requires t < 24
    ensures Lane(t + 1) == (Lane(t).1, (2 * Lane(t).0 + 3 * Lane(t).1) % 5)
  {
  }

  lemma TurnOfLane(t: nat)
    requires t < 24
    ensures 0 <= Lane(t).0 < 5 && 0 <= Lane(t).1 < 5 && Turn(Lane(t).0, Lane(t).1) == t && Lane(t) != (0, 0)
  {
  }

  lemma LaneOfTurn(x: int, y: int)
    requires 0 <= x < 5 && 0 <= y < 5 && (x, y) != (0, 0)
    ensures Turn(x, y) < 24 && Lane(Turn(x, y)) == (x, y)
  {
  }

  /** Steps 0 to 23 visit every lane but the origin, each once. */
  lemma VisitIsTurn(x: int, y: int, from: nat)
    requires 0 <= x < 5 && 0 <= y < 5 && (x, y) != (0, 0)
    requires from <= Turn(x, y)
    ensures Turn(x, y) < 24 && Visit(x, y, from) == Turn(x, y)
    decreases 24 - from
  {
    hide Lane, Turn;
    LaneOfTurn(x, y);
    WalkIsLane(from);
    TurnOfLane(from);
    if from < Turn(x, y) {
      VisitIsTurn(x, y, from + 1);
    }
  }

  lemma {:induction false} WalkVisits(t: nat)
    requires t < 24
    ensures var (x, y) := Walk(t);
      0 <= x < 5 && 0 <= y < 5 && (x, y) != (0, 0) && Visit(x, y, 0) == t && Offset(x, y) == Triangle(t)
  {
    hide Lane, Turn, Walk;
    WalkIsLane(t);
    TurnOfLane(t);
    VisitIsTurn(Walk(t).0, Walk(t).1, 0);
  }

  lemma {:induction false} EveryLaneVisited(x: int, y: int)
    requires 0 <= x < 5 && 0 <= y < 5 && (x, y) != (0, 0)
    ensures Visit(x, y, 0) < 24 && Walk(Visit(x, y, 0)) == (x, y)
  {
    hide Lane, Turn, Walk;
    LaneOfTurn(x, y);
    VisitIsTurn(x, y, 0);
    WalkIsLane(Turn(x, y));
  }

  // ---- the round constants ----

  /** The source's table. */
  function RC(round: nat): nat {
    match round
    case 0 => 0x0000000000000001 case 1 => 0x0000000000008082 case 2 => 0x800000000000808A
    case 3 => 0x8000000080008000 case 4 => 0x000000000000808B case 5 => 0x0000000080000001
    case 6 => 0x8000000080008081 case 7 => 0x8000000000008009 case 8 => 0x000000000000008A
    case 9 => 0x0000000000000088 case 10 => 0x0000000080008009 case 11 => 0x000000008000000A
    case 12 => 0x000000008000808B case 13 => 0x800000000000008B case 14 => 0x8000000000008089
    case 15 => 0x8000000000008003 case 16 => 0x8000000000008002 case 17 => 0x8000000000000080
    case 18 => 0x000000000000800A case 19 => 0x800000008000000A case 20 => 0x8000000080008081
    case 21 => 0x8000000000008080 case 22 => 0x0000000080000001 case _ => 0x8000000080008008
  }

  function Seven(r: Register): Register {
    Next(Next(Next(Next(Next(Next(Next(r)))))))
  }

  /** The register before each round, seven clocks apart. */
  function Loaded(round: nat): Register {
    match round
    case 0 => Register(true, false, false, false, false, false, false, false)
    case 1 => Register(false, false, false, false, false, false, false, true)
    case 2 => Register(false, false, false, true, true, false, true, true)
    case 3 => Register(false, true, false, true, true, false, false, false)
    case 4 => Register(true, true, true, true, true, false, true, true)
    case 5 => Register(true, false, false, true, false, false, false, false)
    case 6 => Register(true, false, true, false, true, true, false, false)
    case 7 => Register(true, true, true, true, false, false, true, false)
    case 8 => Register(false, true, false, true, false, false, true, true)
    case 9 => Register(false, false, false, false, true, true, true, false)
    case 10 => Register(true, false, false, false, false, false, true, false)
    case 11 => Register(false, false, true, true, false, true, true, true)
    case 12 => Register(true, false, true, false, true, false, true, true)
    case 13 => Register(true, false, true, true, false, false, true, true)
    case 14 => Register(true, true, false, false, false, true, true, false)
    case 15 => Register(true, true, false, true, false, true, false, true)
    case 16 => Register(false, true, false, true, false, true, false, true)
    case 17 => Register(false, true, false, true, false, true, false, false)
    case 18 => Register(false, true, false, false, true, true, true, true)
    case 19 => Register(false, false, false, true, false, true, true, true)
    case 20 => Register(true, true, true, false, true, true, false, false)
    case 21 => Register(false, true, true, true, true, true, false, false)
    case 22 => Register(true, true, false, true, false, false, false, false)
    case _ => Register(false, false, true, false, false, false, true, false)
  }

  function Jump(r: Register): Register {
    Register(
      (r.r1 != r.r3) != r.r4, (r.r2 != r.r4) != r.r5, (r.r3 != r.r5) != r.r6, (r.r4 != r.r6) != r.r7,
      (((r.r1 != r.r3) != r.r4) != r.r5) != r.r7, (((r.r1 != r.r2) != r.r3) != r.r5) != r.r6,
        ((r.r1 != r.r2) != r.r6) != r.r7, ((r.r0 != r.r2) != r.r3) != r.r7)
  }

  lemma SevenIsJump(r: Register)
    ensures Seven(r) == Jump(r)
  {
    var third := Next(Next(Next(r)));
    var fifth := Next(Next(third));
  }

  lemma {:induction false} SevenLoads(round: nat)
    requires round < 23
    ensures Seven(Loaded(round)) == Loaded(round + 1)
  {
    hide Next, Seven;
    SevenIsJump(Loaded(round));
    match round
    case 0 => case 1 => case 2 => case 3 => case 4 => case 5 => case 6 => case 7 =>
    case 8 => case 9 => case 10 => case 11 => case 12 => case 13 => case 14 => case 15 =>
    case 16 => case 17 => case 18 => case 19 => case 20 => case 21 => case _ =>
  }

  lemma {:induction false} ClockLoads(round: nat)
    requires round < 24
    ensures Clock(7 * round) == Loaded(round)
  {
    hide Loaded, Next;
    if round == 0 {
      FirstLoad();
    } else {
      ClockLoads(round - 1);
      SevenLoads(round - 1);
      var t := 7 * (round - 1);
      SevenClocks(t);
    }
  }

  lemma FirstLoad()
    ensures Clock(0) == Loaded(0)
  {
  }

  lemma SevenClocks(t: nat)
    ensures Clock(t + 7) == Seven(Clock(t))
  {
    hide Next;
    assert Clock(t + 3) == Next(Next(Next(Clock(t)))) by {
      assert Clock(t + 2) == Next(Clock(t + 1));
    }
    assert Clock(t + 6) == Next(Next(Next(Clock(t + 3)))) by {
      assert Clock(t + 5) == Next(Clock(t + 4));
    }
  }

  /** The bit a register gives after some clocks. */
  function Output(r: Register, clocks: nat): bool
    decreases clocks
  {
    if clocks == 0 then r.r0 else Output(Next(r), clocks - 1)
  }

  /** The first n outputs at positions 0, 1, 3, 7, 15, 31 and 63. */
  function Weigh(r: Register, n: nat): nat
    requires n <= 7
  {
    if n == 0 then 0 else Weigh(r, n - 1) + if Output(r, n - 1) then Pow2(Pow2(n - 1) - 1) else 0
  }

  function Spread(r: Register): nat {
    (if r.r0 then 0x1 else 0) + (if r.r7 then 0x2 else 0) + (if r.r6 then 0x8 else 0)
    + (if r.r5 != r.r7 then 0x80 else 0) + (if (r.r4 != r.r6) != r.r7 then 0x8000 else 0)
    + (if (r.r3 != r.r5) != r.r6 then 0x8000_0000 else 0)
    + (if (r.r2 != r.r4) != r.r5 then 0x8000_0000_0000_0000 else 0)
  }

  lemma SpreadIsRC(round: nat)
    requires round < 24
    ensures Spread(Loaded(round)) == RC(round)
  {
  }

  lemma SmallPowers()
    ensures Pow2(0) == 1 && Pow2(1) == 2 && Pow2(2) == 4 && Pow2(3) == 8 && Pow2(4) == 16 && Pow2(5) == 32
    ensures Pow2(6) == 64 && Pow2(7) == 0x80 && Pow2(15) == 0x8000 && Pow2(31) == 0x8000_0000
    ensures Pow2(63) == 0x8000_0000_0000_0000 && Pow2(64) == 0x1_0000_0000_0000_0000
  {
    assert Pow2(2) == 4;
    assert Pow2(4) == 16;
    assert Pow2(6) == 64;
    assert Pow2(7) == 128;
    PowersMultiply(7, 8);
    PowersMultiply(15, 16);
    PowersMultiply(31, 32);
    PowersMultiply(1, 7);
    PowersMultiply(8, 8);
    PowersMultiply(16, 16);
    PowersMultiply(1, 63);
  }

  lemma OutputsAreSpread(r: Register)
    ensures Weigh(r, 7) == Spread(r) < 0x1_0000_0000_0000_0000
  {
    hide Pow2, Output;
    SmallPowers();
    FirstOutputs(r);
    LastOutputs(r);
    var w2, w4, w6 := Weigh(r, 2), Weigh(r, 4), Weigh(r, 6);
    assert Weigh(r, 1) == if r.r0 then 1 else 0 by {
      assert Weigh(r, 0) == 0;
    }
    assert w2 == Weigh(r, 1) + if r.r7 then 0x2 else 0;
    assert Weigh(r, 3) == w2 + if r.r6 then 0x8 else 0;
    assert w4 == Weigh(r, 3) + if r.r5 != r.r7 then 0x80 else 0;
    assert Weigh(r, 5) == w4 + if (r.r4 != r.r6) != r.r7 then 0x8000 else 0;
    assert w6 == Weigh(r, 5) + if (r.r3 != r.r5) != r.r6 then 0x8000_0000 else 0;
    assert Weigh(r, 7) == w6 + if (r.r2 != r.r4) != r.r5 then 0x8000_0000_0000_0000 else 0;
  }

  lemma FirstOutputs(r: Register)
    ensures Output(r, 0) == r.r0 && Output(r, 1) == r.r7 && Output(r, 2) == r.r6 && Output(r, 3) == (r.r5 != r.r7)
  {
    assert Output(Next(r), 1) == r.r6;
    assert Output(Next(r), 2) == Output(Next(Next(r)), 1);
  }

  lemma LastOutputs(r: Register)
    ensures Output(r, 4) == ((r.r4 != r.r6) != r.r7)
    ensures Output(r, 5) == ((r.r3 != r.r5) != r.r6)
    ensures Output(r, 6) == ((r.r2 != r.r4) != r.r5)
  {
    var third := Next(Next(Next(r)));
    OutputThreeOn(r, 1);
    OutputThreeOn(r, 2);
    OutputThreeOn(r, 3);
    FirstOutputs(third);
  }

  lemma OutputThreeOn(r: Register, n: nat)
    ensures Output(r, n + 3) == Output(Next(Next(Next(r))), n)
  {
    hide Next;
    assert Output(r, n + 3) == Output(Next(r), n + 2);
    assert Output(Next(r), n + 2) == Output(Next(Next(r)), n + 1);
  }

  lemma {:induction false} OutputIsClock(t: nat, n: nat)
    ensures Output(Clock(t), n) == Clock(t + n).r0
    decreases n
  {
    if n > 0 {
      OutputIsClock(t + 1, n - 1);
    }
  }

  /** Bit z comes from the output that is placed there. */
  predicate OutputAt(r: Register, n: nat, z: nat) {
    exists j: nat :: j < n && z == Pow2(j) - 1 && Output(r, j)
  }

  /** The bits of a weighed register are its outputs, in their places. */
  lemma {:induction false} WeighBit(r: Register, n: nat, z: nat)
    requires n <= 7
    ensures Bit(Weigh(r, n), z) <==> OutputAt(r, n, z)
    decreases n
  {
    hide Output, Bit, OutputAt;
    if n == 0 {
      ZeroBit(z);
      NoOutput(r, z);
    } else {
      WeighBit(r, n - 1, z);
      WeighBound(r, n - 1);
      PlusPower(Weigh(r, n - 1), Pow2(n - 1) - 1, z);
      OneMoreOutput(r, n - 1, z);
    }
  }

  lemma {:induction false} WeighBound(r: Register, n: nat)
    requires n <= 7
    ensures Weigh(r, n) < Pow2(Pow2(n) - 1)
  {
    hide Output, Pow2;
    if n == 0 {
      assert Weigh(r, 0) == 0;
    } else {
      WeighBound(r, n - 1);
      NextPower(n - 1);
      NextPower(Pow2(n - 1) - 1);
      PowersGrow(Pow2(n - 1), Pow2(n) - 1);
    }
  }

  lemma NextPower(k: nat)
    ensures Pow2(k + 1) == 2 * Pow2(k)
  {
  }

  lemma NoOutput(r: Register, z: nat)
    ensures !OutputAt(r, 0, z)
  {
  }

  lemma OneMoreOutput(r: Register, n: nat, z: nat)
    ensures OutputAt(r, n + 1, z) <==> OutputAt(r, n, z) || (z == Pow2(n) - 1 && Output(r, n))
  {
    hide Pow2, Output;
  }

  lemma {:induction false} PowersGrow(a: nat, b: nat)
    requires a <= b
    ensures Pow2(a) <= Pow2(b)
  {
    if a < b {
      PowersGrow(a, b - 1);
    }
  }

  /** The source's table holds the constants that section 3.2.5 generates. */
  lemma TableIsGenerated(round: nat, z: nat)
    requires round < 24 && z < 64
    ensures RC(round) < Pow2(64)
    ensures Bit(RC(round), z) <==> RoundConstantBit(round, z)
  {
    hide Loaded, RC, Spread, Weigh, Output, Clock, Bit, OutputAt, RoundConstantBit;
    var r := Loaded(round);
    SpreadIsRC(round);
    OutputsAreSpread(r);
    WeighBit(r, 7, z);
    SmallPowers();
    OutputsAreConstants(round, z);
  }

  lemma OutputsAreConstants(round: nat, z: nat)
    requires round < 24
    ensures OutputAt(Loaded(round), 7, z) <==> RoundConstantBit(round, z)
  {
    hide Loaded, Output, Clock, RoundBit;
    ClockLoads(round);
    forall j: nat | j < 7
      ensures Output(Loaded(round), j) == RoundBit(j + 7 * round)
    {
      OutputIsRoundBit(round, j);
    }
  }

  lemma OutputIsRoundBit(round: nat, j: nat)
    requires round < 24 && j < 7
    ensures Output(Loaded(round), j) == RoundBit(j + 7 * round)
  {
    hide Loaded, Output, Next;
    ClockLoads(round);
    OutputIsClock(7 * round, j);
    var t := j + 7 * round;
    assert t < 255 && t % 255 == t;
  }
}
