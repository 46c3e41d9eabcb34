/** Room and escrow on one clock: when the two deadlines agree, which runs part them, and what verification secures. */
module Deadlines {
  import opened Options
  import opened Bytes
  import opened Text
  import opened Frames
  import opened Hex
  import opened Deal
  import opened DealRuns
  import opened Rail

  // ---- one deal and one escrow, at every moment ----

  predicate Unsettled(r: Record) {
    r.status in {LOCKED, VERIFIED, REVEALED}
  }

  /** The moments when the room takes the reveal of a secret from the payee. */
  predicate TakesReveal(h: HashFn, r: Record, secret: Text, now: int) {
    r.status in {LOCKED, VERIFIED} && ApplyReveal(h, r, secret, r.payee.did, now).Done?
  }

  predicate TakesRefund(r: Record, now: int) {
    ApplyRefund(r, r.payer.did, now).Done?
  }

  /**
   * Every reveal the room takes can be claimed at that moment exactly when the escrow holds the statement and its
   * deadline is not before the room's: two of the comparisons of verifyLock. The deal may be LOCKED or VERIFIED.
   */
  lemma {:induction false} RevealsAreClaimable(h: HashFn, r: Record, e: Escrow, secret: Text)
    requires Inv(h, r) && r.status in {LOCKED, VERIFIED}
    requires e.Held? && e.status == Locked && OnChain(e)
    requires ValidHex32(secret) && Sha256Hex(h, secret) == Lower(r.terms.value.statement)
    ensures
      (forall now :: TakesReveal(h, r, secret, now) ==> RailClaim(h, e, secret, now) == Submitted)
      <==>
      (Lower(e.hashlock) == Lower(r.terms.value.statement) && r.terms.value.refundAfterMs <= 1000 * e.refundTimestamp)
  {
    hide Inv, Lower, ValidHex32, Sha256Hex;
    SecretCase(h, secret);
    HasTerms(h, r);
    var last := r.terms.value.refundAfterMs - 1;
    assert TakesReveal(h, r, secret, last);
  }

  lemma HasTerms(h: HashFn, r: Record)
    requires Inv(h, r) && r.status !in {OFFERED, CANCELLED}
    ensures r.terms.Some? && ValidHex32(r.terms.value.statement)
  {
  }

  /**
   * The room takes every refund that the rail would make, exactly when the escrow's deadline is not before the
   * room's.
   */
  lemma {:induction false} RefundsReconcile(h: HashFn, r: Record, e: Escrow)
    requires Inv(h, r) && Unsettled(r) && e.Held? && e.status == Locked
    ensures
      (forall now :: RailRefund(e, now) == Submitted ==> TakesRefund(r, now))
      <==> r.terms.value.refundAfterMs <= 1000 * e.refundTimestamp
  {
    hide Inv;
    HasTerms(h, r);
    assert RailRefund(e, 1000 * e.refundTimestamp) == Submitted;
  }

  /**
   * A refund frame that reaches ingestRecord is taken before the rail makes the refund exactly when the room's deadline
   * is the earlier one.
   */
  lemma {:induction false} RoomRefundsFirst(h: HashFn, r: Record, e: Escrow)
    requires Inv(h, r) && Unsettled(r) && e.Held? && e.status == Locked
    ensures
      (exists now :: TakesRefund(r, now) && RailRefund(e, now) == RefundTooSoon)
      <==> r.terms.value.refundAfterMs < 1000 * e.refundTimestamp
    ensures Coupled(r.terms.value, e) ==>
      (r.terms.value.refundAfterMs < 1000 * e.refundTimestamp <==> r.terms.value.refundAfterMs % 1000 != 0)
  {
    hide Inv, Lower;
    HasTerms(h, r);
    var deadline := r.terms.value.refundAfterMs;
    if Coupled(r.terms.value, e) {
      DeadlineWindow(deadline);
    }
    if deadline < 1000 * e.refundTimestamp {
      assert TakesRefund(r, deadline) && RailRefund(e, deadline) == RefundTooSoon;
    }
  }

  // ---- the world ----

  /** The clock, the deal, the escrow under its contract id, and whether hashlock and deadline were ever compared. */
  datatype World = World(now: nat, deal: Record, escrow: Escrow, verified: bool)

  /**
   * A step: time passes; the room delivers an event stamped with the clock; sync applies a refund frame of the room by
   * itself; anyone opens an escrow under the id; the orchestrator's verifyLock and its reconciliation; anyone claims or
   * refunds on the chain.
   */
  datatype Step =
    | Tick(dt: nat)
    | Room(e: Event)
    | SyncRefund(from: Text, ts: int)
    | Open(o: Opening)
    | VerifyOnChain(env: Resolver)
    | Reconcile(env: Resolver)
    | ClaimOnChain(secret: Text)
    | RefundOnChain

  /** Events with their time from the clock; a deal is marked verified by the steps that compare its escrow only. */
  predicate FromRoom(e: Event, now: int) {
    match e
    case ELedger(_, _, _) => true
    case EVerify(_, _) => false
    case _ => e.now == now
  }

  function Reference(r: Record): Text {
    if r.ref.Some? && r.ref.value != [] then r.ref.value else r.contractId
  }

  /** What the orchestrator does with a deal whose escrow validates. */
  function Reconciled(h: HashFn, w: World): Record
    requires w.escrow.Held?
  {
    if w.escrow.status == Locked && w.deal.status == LOCKED then
      Next(h, w.deal, EVerify(Some(w.deal.contractId), w.now))
    else if w.escrow.status == Released && w.deal.status == REVEALED then Next(h, w.deal, EClaim(w.now))
    else if w.escrow.status == Returned && Unsettled(w.deal) then Next(h, w.deal, ERefund(w.deal.payer.did, w.now))
    else w.deal
  }

  /** The time at which sync applies a refund frame: never before the room's deadline. */
  function RefundTime(terms: Terms, ts: int, now: nat): int {
    var later := if ts > now then ts else now;
    if terms.refundAfterMs > later then terms.refundAfterMs else later
  }

  function World1(h: HashFn, w: World, s: Step): World {
    match s
    case Tick(dt) => w.(now := w.now + dt)
    case Room(e) => if FromRoom(e, w.now) then w.(deal := Next(h, w.deal, e)) else w
    case SyncRefund(from, ts) =>
      if w.deal.terms.Some? && !IsTerminal(w.deal.status) then
        w.(deal := Next(h, w.deal, ERefund(from, RefundTime(w.deal.terms.value, ts, w.now))))
      else w
    case Open(o) =>
      if HtlcLock(w.escrow, o, w.now).Some? then
        w.(escrow := HtlcLock(w.escrow, o, w.now).value)
      else w
    case VerifyOnChain(env) =>
      if w.deal.terms.Some? && VerifyLock(env, w.deal.terms.value, Reference(w.deal), w.escrow) then
        w.(verified := true,
           deal := if w.deal.status == LOCKED then Next(h, w.deal, EVerify(Some(Reference(w.deal)), w.now)) else w.deal)
      else w
    case Reconcile(env) =>
      if w.deal.terms.Some? && Validates(env, w.deal.terms.value, w.escrow) then
        w.(verified := true, deal := Reconciled(h, w))
      else w
    case ClaimOnChain(secret) =>
      if HtlcClaims(h, w.escrow, secret, w.now) then
        w.(escrow := w.escrow.(status := Released, secret := Some(secret), settledAt := w.now))
      else w
    case RefundOnChain =>
      if HtlcRefunds(w.escrow, w.now) then
        w.(escrow := w.escrow.(status := Returned, settledAt := w.now))
      else w
  }

  function Worlds(h: HashFn, w: World, steps: seq<Step>): World
    decreases |steps|
  {
    if steps == [] then w else Worlds(h, World1(h, w, steps[0]), steps[1..])
  }

  predicate SettledRightly(h: HashFn, e: Escrow, now: int) {
    && (e.Held? && e.status == Released ==>
          e.secret.Some? && Opens(h, e, e.secret.value) && e.settledAt < e.refundTimestamp * 1000)
    && (e.Held? && e.status == Returned ==> e.refundTimestamp * 1000 <= e.settledAt <= now)
  }

  predicate WorldInv(h: HashFn, w: World) {
    && Inv(h, w.deal) && OnChain(w.escrow) && SettledRightly(h, w.escrow, w.now)
    && (w.verified ==> w.deal.terms.Some? && Coupled(w.deal.terms.value, w.escrow))
    && (w.deal.status == VERIFIED ==> w.verified)
  }

  /** Once open, an escrow keeps its hashlock and deadline, and once settled it stays as it is. */
  predicate EscrowStands(e: Escrow, f: Escrow) {
    e.Held? ==>
      && f.Held? && f.hashlock == e.hashlock && f.refundTimestamp == e.refundTimestamp
      && (e.status != Locked ==> f == e)
  }

  /** Every world that starts with a created deal and no escrow. */
  lemma {:induction false} StartInv(h: HashFn, bigInt: Text -> Option<int>, p: OfferParams, now: nat)
    requires CreateOffer(h, bigInt, p).Done?
    ensures WorldInv(h, World(now, CreateOffer(h, bigInt, p).record, NoEscrow, false))
  {
    hide Inv, CreateOffer;
    CreateEstablishesInv(h, bigInt, p);
  }

  /** The deal after a step is the deal or one event further. */
  lemma {:induction false} DealSteps(h: HashFn, w: World, s: Step)
    requires Inv(h, w.deal)
    ensures var v := World1(h, w, s);
      && Inv(h, v.deal) && Advances(w.deal, v.deal)
      && (w.deal.terms.Some? ==> v.deal.terms == w.deal.terms)
      && (v.deal.status == VERIFIED && w.deal.status != VERIFIED ==> v.verified)
  {
    hide Inv, Next, Advances, Lower, ValidHex32, Coupled, VerifyLock, Validates;
    AdvancesIsReflexive(w.deal);
    TermsStand(h, w.deal, w.deal);
    match s {
      case Room(e) => OneEvent(h, w.deal, e);
      case SyncRefund(from, ts) =>
        if w.deal.terms.Some? {
          OneEvent(h, w.deal, ERefund(from, RefundTime(w.deal.terms.value, ts, w.now)));
        }
      case VerifyOnChain(_) => OneEvent(h, w.deal, EVerify(Some(Reference(w.deal)), w.now));
      case Reconcile(_) =>
        OneEvent(h, w.deal, EVerify(Some(w.deal.contractId), w.now));
        OneEvent(h, w.deal, EClaim(w.now));
        OneEvent(h, w.deal, ERefund(w.deal.payer.did, w.now));
      case _ =>
    }
  }

  lemma {:induction false} OneEvent(h: HashFn, r: Record, e: Event)
    requires Inv(h, r)
    ensures Inv(h, Next(h, r, e)) && Advances(r, Next(h, r, e))
    ensures r.terms.Some? ==> Next(h, r, e).terms == r.terms
    ensures Next(h, r, e).status == VERIFIED && r.status != VERIFIED ==> e.EVerify?
  {
    hide Inv, Next, Advances;
    StepKeepsInv(h, r, e);
    StepAdvances(h, r, e);
    TermsStand(h, r, Next(h, r, e));
    OnlyVerifyVerifies(h, r, e);
  }

  lemma {:induction false} TermsStand(h: HashFn, r: Record, s: Record)
    requires Inv(h, r) && Advances(r, s)
    ensures r.terms.Some? ==> s.terms == r.terms
  {
    hide Inv;
    if r.terms.Some? {
      TermsMeanAccepted(h, r);
    }
  }

  lemma {:induction false} OnlyVerifyVerifies(h: HashFn, r: Record, e: Event)
    ensures Next(h, r, e).status == VERIFIED && r.status != VERIFIED ==> e.EVerify?
  {
    hide ComputeContractId, Lower, ValidHex32, Sha256Hex, NormalizedCore, ProjectLockTerms;
  }

  lemma {:induction false} EscrowSteps(h: HashFn, w: World, s: Step)
    requires OnChain(w.escrow) && SettledRightly(h, w.escrow, w.now)
    ensures var v := World1(h, w, s);
      OnChain(v.escrow) && SettledRightly(h, v.escrow, v.now) && EscrowStands(w.escrow, v.escrow) && v.now >= w.now
  {
    hide Next, Sha256Hex, Lower, ValidHex32, VerifyLock, Validates, IsZeroAddress, IsAddress;
    match s {
      case Open(o) => LowerTwice(o.hashlock);
      case _ =>
    }
  }

  /** Every step of anyone keeps the invariant: a comparison once made holds for good. */
  lemma {:induction false} WorldStepKeepsInv(h: HashFn, w: World, s: Step)
    requires WorldInv(h, w)
    ensures WorldInv(h, World1(h, w, s))
    ensures EscrowStands(w.escrow, World1(h, w, s).escrow) && World1(h, w, s).now >= w.now
    ensures Advances(w.deal, World1(h, w, s).deal)
  {
    hide Inv, Next, Advances, OnChain, SettledRightly, Reconciled, HtlcLock, HtlcClaims, HtlcRefunds, Lower, ValidHex32;
    DealSteps(h, w, s);
    EscrowSteps(h, w, s);
  }

  // ---- runs ----

  lemma {:induction false} WorldsKeepInv(h: HashFn, w: World, steps: seq<Step>)
    requires WorldInv(h, w)
    ensures WorldInv(h, Worlds(h, w, steps))
    ensures EscrowStands(w.escrow, Worlds(h, w, steps).escrow) && Worlds(h, w, steps).now >= w.now
    ensures Advances(w.deal, Worlds(h, w, steps).deal)
    decreases |steps|
  {
    hide WorldInv, World1, Advances;
    if steps == [] {
      AdvancesIsReflexive(w.deal);
    } else {
      var v := World1(h, w, steps[0]);
      WorldStepKeepsInv(h, w, steps[0]);
      WorldsKeepInv(h, v, steps[1..]);
      AdvancesIsTransitive(w.deal, v.deal, Worlds(h, w, steps).deal);
    }
  }

  /** The escrow settles once: no later step changes a claimed or refunded one. */
  lemma {:induction false} EscrowSettlesOnce(h: HashFn, w: World, steps: seq<Step>)
    requires WorldInv(h, w) && w.escrow.Held? && w.escrow.status != Locked
    ensures Worlds(h, w, steps).escrow == w.escrow
  {
    hide WorldInv, Worlds;
    WorldsKeepInv(h, w, steps);
  }

  /**
   * In every run, whoever opened the escrow: once it was compared, and so whenever the deal is VERIFIED, a reveal that
   * the room takes finds the claim open or already made, and the refund shut.
   */
  lemma {:induction false} RevealIsClaimable(h: HashFn, w: World, steps: seq<Step>, secret: Text)
    requires WorldInv(h, w)
    requires var v := Worlds(h, w, steps);
      (v.verified || v.deal.status == VERIFIED) && TakesReveal(h, v.deal, secret, v.now)
    ensures var v := Worlds(h, w, steps);
      && RailClaim(h, v.escrow, secret, v.now) in {Submitted, AlreadySettled}
      && RailRefund(v.escrow, v.now) in {RefundTooSoon, NotLocked}
  {
    hide Worlds, Inv, Lower, ValidHex32, Sha256Hex, Advances;
    WorldsKeepInv(h, w, steps);
    var v := Worlds(h, w, steps);
    DeadlineWindow(v.deal.terms.value.refundAfterMs);
    SecretCase(h, secret);
    LowerTwice(v.deal.terms.value.statement);
  }

  /** In every run, once the escrow was compared and the rail refunds or the refund was made, the room takes it. */
  lemma {:induction false} RefundReconciles(h: HashFn, w: World, steps: seq<Step>)
    requires WorldInv(h, w)
    requires var v := Worlds(h, w, steps);
      v.verified && Unsettled(v.deal) && RailRefund(v.escrow, v.now) in {Submitted, AlreadySettled}
    ensures var v := Worlds(h, w, steps); TakesRefund(v.deal, v.now)
  {
    hide Worlds, Inv, Lower, ValidHex32, Advances, OnChain;
    WorldsKeepInv(h, w, steps);
    var v := Worlds(h, w, steps);
    DeadlineWindow(v.deal.terms.value.refundAfterMs);
  }

  // ---- refund frames that sync applies ----

  /**
   * Before it ingests a refund frame, and so before the frame's signature is checked, sync applies it with a time
   * raised to the room's deadline: an unsettled deal is refunded exactly when the frame names the payer, whatever the
   * moment.
   */
  lemma {:induction false} SyncRefundIsTaken(h: HashFn, w: World, from: Text, ts: int)
    requires WorldInv(h, w) && Unsettled(w.deal)
    ensures var v := World1(h, w, SyncRefund(from, ts));
      && (v.deal.status == REFUNDED <==> from == w.deal.payer.did)
      && (from != w.deal.payer.did ==> v == w)
      && v.escrow == w.escrow && v.now == w.now
  {
    hide Inv, OnChain, SettledRightly, Coupled;
    HasTerms(h, w.deal);
  }

  /** The room has refunded, and the rail does not refund yet. */
  predicate RefundedEarly(h: HashFn, v: World) {
    v.deal.status == REFUNDED && RailRefund(v.escrow, v.now) == RefundTooSoon
  }

  /**
   * So on every unsettled deal with a live escrow, compared or not and whatever the deadlines, some frame makes the
   * room refund before the rail does, exactly while the rail does not refund; and then no reveal is taken any more.
   */
  lemma {:induction false} SyncRefundsEarly(h: HashFn, w: World)
    requires WorldInv(h, w) && Unsettled(w.deal) && w.escrow.Held? && w.escrow.status == Locked
    ensures (exists from, ts :: RefundedEarly(h, World1(h, w, SyncRefund(from, ts)))) <==>
      w.now < 1000 * w.escrow.refundTimestamp
    ensures forall from, ts, secret, now ::
      RefundedEarly(h, World1(h, w, SyncRefund(from, ts))) ==>
        !TakesReveal(h, World1(h, w, SyncRefund(from, ts)).deal, secret, now)
  {
    hide WorldInv, World1;
    forall from, ts
      ensures RefundedEarly(h, World1(h, w, SyncRefund(from, ts))) <==>
        from == w.deal.payer.did && w.now < 1000 * w.escrow.refundTimestamp
    {
      SyncRefundIsTaken(h, w, from, ts);
    }
    assert RefundedEarly(h, World1(h, w, SyncRefund(w.deal.payer.did, 0))) <==> w.now < 1000 * w.escrow.refundTimestamp;
  }

  // ---- reveals on an escrow nobody compared ----

  /**
   * The escrow's claim window is shut and its refund window open, while the room takes the reveal and not the refund.
   */
  predicate Stranded(h: HashFn, v: World, secret: Text) {
    && TakesReveal(h, v.deal, secret, v.now) && !TakesRefund(v.deal, v.now)
    && RailClaim(h, v.escrow, secret, v.now) == ClaimTooLate && RailRefund(v.escrow, v.now) == Submitted
  }

  /** An escrow that is opened from moment t on has its deadline after t. */
  lemma {:induction false} OpenedLater(h: HashFn, w: World, steps: seq<Step>, t: nat)
    requires t <= w.now && (w.escrow.Held? ==> w.escrow.refundTimestamp > t / 1000)
    ensures var e := Worlds(h, w, steps).escrow; e.Held? ==> e.refundTimestamp > t / 1000
    decreases |steps|
  {
    hide Next, Reconciled, VerifyLock, Validates, Opens, IsZeroAddress, IsAddress, ValidHex32, Lower;
    if steps != [] {
      assert w.now / 1000 >= t / 1000;
      OpenedLater(h, World1(h, w, steps[0]), steps[1..], t);
    }
  }

  /**
   * From a LOCKED deal without an escrow, some run strands the payee's reveal if and only if a whole second lies
   * between the present one and the room's deadline. In no such run was the escrow compared.
   */
  lemma {:induction false} RevealCanBeStranded(h: HashFn, w: World, secret: Text)
    requires WorldInv(h, w) && w.deal.status == LOCKED && w.escrow.NoEscrow?
    requires ValidHex32(secret) && Sha256Hex(h, secret) == Lower(w.deal.terms.value.statement)
    ensures (exists steps :: Stranded(h, Worlds(h, w, steps), secret))
      <==> 1000 * (w.now / 1000 + 1) < w.deal.terms.value.refundAfterMs
    ensures forall steps :: Stranded(h, Worlds(h, w, steps), secret) ==> !Worlds(h, w, steps).verified
  {
    hide Inv, Worlds, Stranded, Sha256Hex, Lower, ValidHex32;
    HasTerms(h, w.deal);
    forall steps | Stranded(h, Worlds(h, w, steps), secret)
      ensures 1000 * (w.now / 1000 + 1) < w.deal.terms.value.refundAfterMs && !Worlds(h, w, steps).verified
    {
      StrandedIsLate(h, w, steps, secret);
    }
    if 1000 * (w.now / 1000 + 1) < w.deal.terms.value.refundAfterMs {
      var steps := EarlyEscrow(h, w, secret);
    }
  }

  lemma {:induction false} StrandedIsLate(h: HashFn, w: World, steps: seq<Step>, secret: Text)
    requires WorldInv(h, w) && w.deal.status == LOCKED && w.escrow.NoEscrow?
    requires Stranded(h, Worlds(h, w, steps), secret)
    ensures 1000 * (w.now / 1000 + 1) < w.deal.terms.value.refundAfterMs
    ensures !Worlds(h, w, steps).verified
  {
    hide Worlds, Inv, Sha256Hex, Lower, ValidHex32, OnChain, SettledRightly, Coupled, Advances;
    var v := Worlds(h, w, steps);
    WorldsKeepInv(h, w, steps);
    OpenedLater(h, w, steps, w.now);
    HasTerms(h, w.deal);
    TermsStand(h, w.deal, v.deal);
    if v.verified {
      RevealIsClaimable(h, w, steps, secret);
    }
  }

  /** Anyone opens an escrow on the statement that ends with the next second, and the payee reveals after it. */
  lemma {:induction false} EarlyEscrow(h: HashFn, w: World, secret: Text) returns (steps: seq<Step>)
    requires WorldInv(h, w) && w.deal.status == LOCKED && w.escrow.NoEscrow?
    requires ValidHex32(secret) && Sha256Hex(h, secret) == Lower(w.deal.terms.value.statement)
    requires 1000 * (w.now / 1000 + 1) < w.deal.terms.value.refundAfterMs
    ensures Stranded(h, Worlds(h, w, steps), secret)
  {
    hide Inv, Sha256Hex, Lower, ValidHex32, Next, IsZeroAddress, IsAddress;
    HasTerms(h, w.deal);
    var end := w.now / 1000 + 1;
    var o := SomeOpening(w.deal.terms.value.statement, end);
    var s1, s2 := Open(o), Tick(1000 * end - w.now);
    steps := [s1, s2];
    TwoSteps(h, w, s1, s2);
    SomeAddresses();
    SecretCase(h, secret);
    LowerTwice(w.deal.terms.value.statement);
  }

  /** An opening between two plain addresses, of one unit of ether. */
  function SomeOpening(hashlock: Text, end: int): Opening {
    Opening(RepeatedAddress(49), RepeatedAddress(50), RepeatedAddress(48), 1, hashlock, end)
  }

  lemma SomeAddresses()
    ensures IsAddress(RepeatedAddress(48)) && IsAddress(RepeatedAddress(49)) && IsAddress(RepeatedAddress(50))
    ensures !IsZeroAddress(RepeatedAddress(50))
  {
    assert RepeatedAddress(50)[2] != RepeatedAddress(48)[2];
  }

  lemma {:induction false} TwoSteps(h: HashFn, w: World, s1: Step, s2: Step)
    ensures Worlds(h, w, [s1, s2]) == World1(h, World1(h, w, s1), s2)
  {
    hide World1;
    assert [s1, s2][1..] == [s2] && [s2][1..] == [];
    assert Worlds(h, World1(h, w, s1), [s2]) == Worlds(h, World1(h, World1(h, w, s1), s2), []);
  }

  // ---- how the layers can end apart ----

  predicate Apart(v: World) {
    v.deal.status == REFUNDED && v.escrow.Held? && v.escrow.status == Released
  }

  /** The escrow was claimed, or can be: open and unexpired with an opening secret, or not even opened yet. */
  ghost predicate CanRelease(h: HashFn, e: Escrow, now: nat) {
    match e
    case NoEscrow => now / 1000 + 1 < 0x1_0000_0000_0000_0000
    case Held(status, _, _, _, _, _, end, _, _) =>
      status == Released || (status == Locked && now < 1000 * end && exists secret :: Opens(h, e, secret))
  }

  lemma {:induction false} ReleaseStaysShut(h: HashFn, w: World, steps: seq<Step>)
    requires !CanRelease(h, w.escrow, w.now)
    ensures !CanRelease(h, Worlds(h, w, steps).escrow, Worlds(h, w, steps).now)
    decreases |steps|
  {
    hide CanRelease, World1;
    if steps != [] {
      StepStaysShut(h, w, steps[0]);
      ReleaseStaysShut(h, World1(h, w, steps[0]), steps[1..]);
    }
  }

  lemma {:induction false} StepStaysShut(h: HashFn, w: World, s: Step)
    requires !CanRelease(h, w.escrow, w.now)
    ensures !CanRelease(h, World1(h, w, s).escrow, World1(h, w, s).now)
  {
    hide Next, Reconciled, VerifyLock, Validates, IsZeroAddress, IsAddress, ValidHex32, Lower, Sha256Hex;
  }

  /**
   * A deal that was locked and not claimed can end REFUNDED in the room with its escrow claimed, if and only if that
   * escrow was claimed or still can be. This holds before the payer's refund and after it.
   */
  lemma {:induction false} EndsApart(h: HashFn, w: World)
    requires WorldInv(h, w) && (Unsettled(w.deal) || w.deal.status == REFUNDED)
    ensures (exists steps :: Apart(Worlds(h, w, steps))) <==> CanRelease(h, w.escrow, w.now)
  {
    hide WorldInv, Worlds, CanRelease;
    forall steps | Apart(Worlds(h, w, steps))
      ensures CanRelease(h, w.escrow, w.now)
    {
      if !CanRelease(h, w.escrow, w.now) {
        ReleaseStaysShut(h, w, steps);
        ReleasedIsReleased(h, Worlds(h, w, steps));
      }
    }
    if CanRelease(h, w.escrow, w.now) {
      var steps := ReleaseAndRefund(h, w);
    }
  }

  lemma ReleasedIsReleased(h: HashFn, v: World)
    requires Apart(v)
    ensures CanRelease(h, v.escrow, v.now)
  {
  }

  lemma {:induction false} ReleaseAndRefund(h: HashFn, w: World) returns (steps: seq<Step>)
    requires WorldInv(h, w) && (Unsettled(w.deal) || w.deal.status == REFUNDED)
    requires CanRelease(h, w.escrow, w.now)
    ensures Apart(Worlds(h, w, steps))
  {
    hide WorldInv, World1, CanRelease, Apart;
    var release := Release(h, w);
    var v := Worlds(h, w, release);
    WorldsKeepInv(h, w, release);
    var s1, s2 := RefundSteps(h, v);
    TwoSteps(h, v, s1, s2);
    WorldsConcat(h, w, release, [s1, s2]);
    steps := release + [s1, s2];
  }

  lemma {:induction false} WorldsConcat(h: HashFn, w: World, a: seq<Step>, b: seq<Step>)
    ensures Worlds(h, w, a + b) == Worlds(h, Worlds(h, w, a), b)
    decreases |a|
  {
    hide World1;
    if a == [] {
      assert a + b == b;
    } else {
      assert (a + b)[1..] == a[1..] + b;
      WorldsConcat(h, World1(h, w, a[0]), a[1..], b);
    }
  }

  /** Steps that leave the deal alone and the escrow claimed. */
  lemma {:induction false} Release(h: HashFn, w: World) returns (steps: seq<Step>)
    requires WorldInv(h, w) && CanRelease(h, w.escrow, w.now)
    ensures var v := Worlds(h, w, steps); v.deal == w.deal && v.escrow.Held? && v.escrow.status == Released
  {
    hide WorldInv, Inv, Sha256Hex, Lower, ValidHex32, Next, IsZeroAddress, IsAddress;
    if w.escrow.NoEscrow? {
      SomeAddresses();
      var secret, lock := SomeSecret(h);
      var s1, s2 := Open(SomeOpening(lock, w.now / 1000 + 1)), ClaimOnChain(secret);
      TwoSteps(h, w, s1, s2);
      steps := [s1, s2];
    } else if w.escrow.status == Released {
      steps := [];
    } else {
      var secret :| Opens(h, w.escrow, secret);
      steps := [ClaimOnChain(secret)];
      assert steps[1..] == [];
      assert Worlds(h, World1(h, w, steps[0]), []) == World1(h, w, steps[0]);
    }
  }

  /** Some text is a secret, and its digest a hashlock. */
  lemma SomeSecret(h: HashFn) returns (secret: Text, lock: Text)
    ensures ValidHex32(secret) && ValidHex32(lock) && lock == Sha256Hex(h, secret) == Lower32(lock)
  {
    hide Lower, ValidHex32;
    DigestText(h([]));
    secret := HexText(h([]).bytes);
    DigestText(h(BodyBytes(Lower32(secret)[2..])));
    lock := Sha256Hex(h, secret);
  }

  /** Waiting for the room's deadline and then the payer's refund; the escrow stays as it is. */
  lemma {:induction false} RefundSteps(h: HashFn, w: World) returns (s1: Step, s2: Step)
    requires WorldInv(h, w) && (Unsettled(w.deal) || w.deal.status == REFUNDED)
    requires w.escrow.Held? && w.escrow.status == Released
    ensures Apart(World1(h, World1(h, w, s1), s2))
  {
    hide Inv, OnChain, SettledRightly, Coupled;
    HasTerms(h, w.deal);
    var wait := w.deal.terms.value.refundAfterMs - w.now;
    var dt: nat := if wait > 0 then wait else 0;
    s1, s2 := Tick(dt), Room(ERefund(w.deal.payer.did, w.now + dt));
  }

  /** The room says claimed, and the payer has the money back. */
  predicate Unpaid(v: World) {
    v.deal.status == CLAIMED && v.escrow.Held? && v.escrow.status == Returned
  }

  /** The escrow was not claimed: it was refunded, or it is open and its deadline will come, or it is not opened yet. */
  predicate CanReturn(e: Escrow, now: nat) {
    match e
    case NoEscrow => now / 1000 + 1 < 0x1_0000_0000_0000_0000
    case Held(status, _, _, _, _, _, _, _, _) => status != Released
  }

  lemma {:induction false} ReturnStaysShut(h: HashFn, w: World, steps: seq<Step>)
    requires !CanReturn(w.escrow, w.now)
    ensures !CanReturn(Worlds(h, w, steps).escrow, Worlds(h, w, steps).now)
    decreases |steps|
  {
    hide CanReturn, World1;
    if steps != [] {
      StepStaysClaimed(h, w, steps[0]);
      ReturnStaysShut(h, World1(h, w, steps[0]), steps[1..]);
    }
  }

  lemma {:induction false} StepStaysClaimed(h: HashFn, w: World, s: Step)
    requires !CanReturn(w.escrow, w.now)
    ensures !CanReturn(World1(h, w, s).escrow, World1(h, w, s).now)
  {
    hide Next, Reconciled, VerifyLock, Validates, IsZeroAddress, IsAddress, ValidHex32, Lower, Opens;
  }

  /**
   * A claimed receipt moves a revealed deal to CLAIMED without a look at the chain: the deal can end CLAIMED in the
   * room with its escrow refunded, if and only if the escrow was not claimed.
   */
  lemma {:induction false} EndsUnpaid(h: HashFn, w: World)
    requires WorldInv(h, w) && w.deal.status in {REVEALED, CLAIMED}
    ensures (exists steps :: Unpaid(Worlds(h, w, steps))) <==> CanReturn(w.escrow, w.now)
  {
    hide WorldInv, Worlds;
    forall steps | Unpaid(Worlds(h, w, steps))
      ensures CanReturn(w.escrow, w.now)
    {
      if !CanReturn(w.escrow, w.now) {
        ReturnStaysShut(h, w, steps);
      }
    }
    if CanReturn(w.escrow, w.now) {
      var steps := ClaimAndReturn(h, w);
    }
  }

  lemma {:induction false} ClaimAndReturn(h: HashFn, w: World) returns (steps: seq<Step>)
    requires WorldInv(h, w) && w.deal.status in {REVEALED, CLAIMED} && CanReturn(w.escrow, w.now)
    ensures Unpaid(Worlds(h, w, steps))
  {
    hide WorldInv, World1, CanReturn;
    var s1, s2 := Room(EClaim(w.now)), SomeEscrow(h, w);
    var u := World1(h, World1(h, w, s1), s2);
    ClaimThenOpen(h, w);
    var wait := if u.escrow.Held? && u.escrow.refundTimestamp > 0 then 1000 * u.escrow.refundTimestamp else 0;
    var s3, s4 := Tick(wait), RefundOnChain;
    TwoSteps(h, w, s1, s2);
    TwoSteps(h, u, s3, s4);
    WorldsConcat(h, w, [s1, s2], [s3, s4]);
    ReturnAfterDeadline(h, u, s3.dt);
    steps := [s1, s2] + [s3, s4];
  }

  /** A step that opens an escrow where there is none. */
  function SomeEscrow(h: HashFn, w: World): Step {
    if w.escrow.NoEscrow? then Open(SomeOpening(HexText(h([]).bytes), w.now / 1000 + 1)) else Tick(0)
  }

  lemma {:induction false} ClaimThenOpen(h: HashFn, w: World)
    requires w.deal.status in {REVEALED, CLAIMED} && CanReturn(w.escrow, w.now)
    ensures var u := World1(h, World1(h, w, Room(EClaim(w.now))), SomeEscrow(h, w));
      u.deal.status == CLAIMED && u.escrow.Held? && u.escrow.status != Released
  {
    hide IsZeroAddress, IsAddress, ValidHex32, Lower;
    SomeAddresses();
    DigestText(h([]));
  }

  lemma {:induction false} ReturnAfterDeadline(h: HashFn, u: World, dt: nat)
    requires u.deal.status == CLAIMED && u.escrow.Held? && u.escrow.status != Released
    requires dt >= 1000 * u.escrow.refundTimestamp
    ensures Unpaid(World1(h, World1(h, u, Tick(dt)), RefundOnChain))
  {
  }
}
