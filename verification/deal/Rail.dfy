/** The settlement rail and the escrow contract behind it: guards, windows, and what a verified lock guarantees. */
module Rail {
  import opened Options
  import opened Bytes
  import opened Text
  import opened Frames
  import opened Hex
  import opened Deal
  import opened DealRuns

  // ---- toEvmTimestamp ----

  /** toEvmTimestamp: None is the exception. */
  function ToEvmTimestamp(ms: int): Option<int> {
    if ms <= 0 || ms > 0x1F_FFFF_FFFF_FFFF then None else Some((ms + 999) / 1000)
  }

  function Ceil(x: real): int {
    -(-x).Floor
  }

  /**
   * The quotient is a JavaScript number, correctly rounded: exact on whole seconds, and below 2^53 ms never further
   * than 2^-10 from the true value. Rounding up after that rounding is still rounding up.
   */
  lemma CeilSurvivesRounding(ms: int, quotient: real)
    requires 0 < ms <= 0x1F_FFFF_FFFF_FFFF
    requires ms % 1000 == 0 ==> quotient == (ms / 1000) as real
    requires -1.0 / 1024.0 <= quotient - ms as real / 1000.0 <= 1.0 / 1024.0
    ensures ToEvmTimestamp(ms) == Some(Ceil(quotient))
  {
    var q, r := ms / 1000, ms % 1000;
    assert ms as real == 1000.0 * q as real + r as real;
    if r == 0 {
      assert (-quotient) == (-q) as real;
    } else {
      assert ms as real / 1000.0 == q as real + r as real / 1000.0;
      assert q as real < quotient < (q + 1) as real;
      assert (-quotient).Floor == -(q + 1);
    }
  }

  /** The agreed escrow deadline in ms never opens before the room's, and at most 999 ms after it. */
  lemma DeadlineWindow(ms: int)
    requires ToEvmTimestamp(ms).Some?
    ensures ms <= 1000 * ToEvmTimestamp(ms).value <= ms + 999
    ensures 1000 * ToEvmTimestamp(ms).value == ms <==> ms % 1000 == 0
  {
  }

  // ---- the escrow contract ----

  datatype EscrowStatus = Locked | Released | Returned

  /** The escrow under one contract id; addresses and the hashlock as hex text, the deadline in seconds. */
  datatype Escrow =
    | NoEscrow
    | Held(status: EscrowStatus, payer: Text, payee: Text, token: Text, amount: int, hashlock: Text,
           refundTimestamp: int, secret: Option<Text>, settledAt: int)

  /** What a call of lock passes; the sender becomes the payer. */
  datatype Opening = Opening(sender: Text, payee: Text, token: Text, amount: int, hashlock: Text, refundTimestamp: int)

  /** Twenty bytes of hex. */
  predicate IsAddress(a: Text) {
    |a| == 42 && a[0] == 48 && a[1] == 120 && forall i :: 2 <= i < 42 ==> IsHexDigit(a[i])
  }

  /** The address of twenty equal bytes, each of a digit twice. */
  function RepeatedAddress(digit: unit16): (a: Text)
    ensures |a| == 42 && a[0] == 48 && a[1] == 120 && forall i :: 2 <= i < 42 ==> a[i] == digit
  {
    seq(42, i => if i == 0 then 48 else if i == 1 then 120 else digit)
  }

  predicate IsZeroAddress(a: Text) {
    a == RepeatedAddress(48)
  }

  /** The types of the contract's parameters: addresses, bytes32, uint256 and uint64. */
  predicate WellTyped(o: Opening) {
    && IsAddress(o.sender) && IsAddress(o.payee) && IsAddress(o.token) && ValidHex32(o.hashlock)
    && 0 <= o.amount < 0x1_0000_0000_0000_0000_0000_0000_0000_0000_0000_0000_0000_0000_0000_0000_0000_0000
    && 0 <= o.refundTimestamp < 0x1_0000_0000_0000_0000
  }

  /**
   * Htlc.lock: anyone may open an escrow under any id with any hashlock and deadline; None is the revert, or a call
   * that cannot be encoded.
   */
  function HtlcLock(e: Escrow, o: Opening, now: int): Option<Escrow> {
    if !WellTyped(o) || e.Held? || now / 1000 >= o.refundTimestamp || o.amount == 0 || IsZeroAddress(o.payee) then None
    else Some(Held(Locked, o.sender, o.payee, o.token, o.amount, Lower32(o.hashlock), o.refundTimestamp, None, 0))
  }

  /** The secret opens the escrow's hashlock. */
  predicate Opens(h: HashFn, e: Escrow, secret: Text) {
    e.Held? && ValidHex32(secret) && Sha256Hex(h, secret) == e.hashlock
  }

  /** Htlc.claim, open to anyone with the secret while the deadline's second has not begun. */
  predicate HtlcClaims(h: HashFn, e: Escrow, secret: Text, now: int) {
    e.Held? && e.status == Locked && now / 1000 < e.refundTimestamp && Opens(h, e, secret)
  }

  /** Htlc.refund, open to anyone from the deadline on. */
  predicate HtlcRefunds(e: Escrow, now: int) {
    e.Held? && e.status == Locked && now / 1000 >= e.refundTimestamp
  }

  // ---- the rail ----

  /**
   * What the rail asks of others: the BigInt constructor, the address of an identity, the token of an asset, and the
   * comparison of addresses. None is an exception.
   */
  datatype Resolver = Resolver(
    bigInt: Text -> Option<int>, address: Text -> Option<Text>, token: Text -> Option<Text>,
    same: (Text, Text) -> bool)

  /** How a rail call ends: with an exception, with nothing to do, or with a transaction submitted. */
  datatype RailOutcome =
    | UnsupportedLock | InvalidTerms | RefundWindowOpen | Unresolved | AlreadyHeld
    | NotFound | NotLocked | ClaimTooLate | RefundTooSoon | WrongSecret | AlreadySettled | Submitted

  /** rail.lock up to the transaction. */
  function RailLock(env: Resolver, terms: Terms, escrow: Escrow, minLockWindowMs: int, now: int): RailOutcome {
    if terms.lock != HashLock then UnsupportedLock
    else if !ValidHex32(terms.contract) || !ValidHex32(terms.statement) then InvalidTerms
    else if terms.claimByMs >= terms.refundAfterMs then InvalidTerms
    else if now >= terms.refundAfterMs then RefundWindowOpen
    else if minLockWindowMs > 0 && terms.refundAfterMs - now < minLockWindowMs then RefundWindowOpen
    else if env.bigInt(terms.amount).None? then Unresolved
    else if env.bigInt(terms.amount).value <= 0 || ToEvmTimestamp(terms.refundAfterMs).None? then InvalidTerms
    else if env.address(terms.payee).None? || env.token(terms.asset).None? then Unresolved
    else if escrow.Held? then AlreadyHeld
    else Submitted
  }

  /** The transaction that rail.lock submits for its account. */
  function RailOpening(env: Resolver, terms: Terms, escrow: Escrow, window: int, now: int, account: Text): Opening
    requires RailLock(env, terms, escrow, window, now) == Submitted
  {
    Opening(account, env.address(terms.payee).value, env.token(terms.asset).value, env.bigInt(terms.amount).value,
            Lower32(terms.statement), ToEvmTimestamp(terms.refundAfterMs).value)
  }

  /** What verifyLock compares of hashlock and deadline. */
  predicate Coupled(terms: Terms, escrow: Escrow) {
    && escrow.Held? && Lower(escrow.hashlock) == Lower(terms.statement)
    && ToEvmTimestamp(terms.refundAfterMs) == Some(escrow.refundTimestamp)
  }

  /**
   * rail.verifyLock: a live escrow under the agreed id that matches the terms in every field; an exception is false.
   */
  predicate VerifyLock(env: Resolver, terms: Terms, ref: Text, escrow: Escrow) {
    && terms.lock == HashLock && terms.claimByMs < terms.refundAfterMs
    && ValidHex32(ref) && ValidHex32(terms.contract) && Lower(ref) == Lower(terms.contract)
    && escrow.Held? && escrow.status == Locked
    && env.address(terms.payer).Some? && env.address(terms.payee).Some? && env.token(terms.asset).Some?
    && env.bigInt(terms.amount) == Some(escrow.amount) && Coupled(terms, escrow)
    && env.same(escrow.payer, env.address(terms.payer).value)
    && env.same(escrow.payee, env.address(terms.payee).value)
    && env.same(escrow.token, env.token(terms.asset).value)
  }

  /**
   * What verifyLock accepts for an agreed deal, over any escrow, in the words of offer and accept: a locked hash escrow
   * under the agreed id, of the agreed amount, token, parties and statement, due in the second that holds the deadline.
   */
  lemma {:induction false} LockVerifiesExactly(h: HashFn, env: Resolver, r: Record, ref: Text, e: Escrow)
    requires Inv(h, r) && r.terms.Some?
    ensures var o, a := r.offer, r.accept.value;
      var payer := if o.role == Payer then o.from else a.core.from;
      var payee := if o.role == Payer then a.core.from else o.from;
      VerifyLock(env, r.terms.value, ref, e)
      <==>
      && o.lock == HashLock && ValidHex32(ref) && ValidHex32(a.contract) && Lower(ref) == Lower(r.contractId)
      && e.Held? && e.status == Locked
      && env.bigInt(o.amount) == Some(e.amount)
      && (exists token :: env.token(o.asset) == Some(token) && env.same(e.token, token))
      && (exists address :: env.address(payer) == Some(address) && env.same(e.payer, address))
      && (exists address :: env.address(payee) == Some(address) && env.same(e.payee, address))
      && Lower(e.hashlock) == Lower(a.core.statement)
      && 0 < o.refundAfterMs && 1000 * (e.refundTimestamp - 1) < o.refundAfterMs <= 1000 * e.refundTimestamp
  {
    hide Lower, ValidHex32, ComputeOfferId, ComputeContractId, NormalizedCore;
    var t := r.terms.value;
    if VerifyLock(env, t, ref, e) {
      assert env.token(t.asset) == Some(env.token(t.asset).value);
      assert env.address(t.payer) == Some(env.address(t.payer).value);
      assert env.address(t.payee) == Some(env.address(t.payee).value);
    }
  }

  /** The transaction that rail.lock submits for an agreed deal carries the offer's amount, asset and deadline. */
  lemma {:induction false} OpeningIsAgreed(h: HashFn, env: Resolver, r: Record, e: Escrow, window: int, now: int,
      account: Text)
    requires Inv(h, r) && r.terms.Some? && RailLock(env, r.terms.value, e, window, now) == Submitted
    ensures var o, a := r.offer, r.accept.value;
      var opening := RailOpening(env, r.terms.value, e, window, now, account);
      && o.lock == HashLock && opening.sender == account
      && env.bigInt(o.amount) == Some(opening.amount) && opening.amount > 0
      && env.token(o.asset) == Some(opening.token)
      && env.address(if o.role == Payer then a.core.from else o.from) == Some(opening.payee)
      && opening.hashlock == Lower(a.core.statement)
      && now < o.refundAfterMs
      && 1000 * (opening.refundTimestamp - 1) < o.refundAfterMs <= 1000 * opening.refundTimestamp
  {
    hide Lower, ValidHex32, ComputeOfferId, ComputeContractId, NormalizedCore;
  }

  /** The orchestrator's own comparison before it reconciles: no token, and only addresses it can resolve. */
  predicate Validates(env: Resolver, terms: Terms, escrow: Escrow) {
    && escrow.Held? && env.bigInt(terms.amount) == Some(escrow.amount) && Coupled(terms, escrow)
    && (env.address(terms.payer).Some? ==> Lower(escrow.payer) == Lower(env.address(terms.payer).value))
    && (env.address(terms.payee).Some? ==> Lower(escrow.payee) == Lower(env.address(terms.payee).value))
  }

  /** What that comparison accepts for an agreed deal, in the words of offer and accept. */
  lemma {:induction false} EscrowValidatesExactly(h: HashFn, env: Resolver, r: Record, e: Escrow)
    requires Inv(h, r) && r.terms.Some?
    ensures var o, a := r.offer, r.accept.value;
      var payer := if o.role == Payer then o.from else a.core.from;
      var payee := if o.role == Payer then a.core.from else o.from;
      Validates(env, r.terms.value, e)
      <==>
      && e.Held? && env.bigInt(o.amount) == Some(e.amount)
      && (forall address :: env.address(payer) == Some(address) ==> Lower(e.payer) == Lower(address))
      && (forall address :: env.address(payee) == Some(address) ==> Lower(e.payee) == Lower(address))
      && Lower(e.hashlock) == Lower(a.core.statement)
      && 0 < o.refundAfterMs && 1000 * (e.refundTimestamp - 1) < o.refundAfterMs <= 1000 * e.refundTimestamp
  {
    hide Lower, ValidHex32, ComputeOfferId, ComputeContractId, NormalizedCore;
    var t := r.terms.value;
    if env.address(t.payer).Some? {
      assert env.address(t.payer) == Some(env.address(t.payer).value);
    }
    if env.address(t.payee).Some? {
      assert env.address(t.payee) == Some(env.address(t.payee).value);
    }
  }

  /** rail.claim up to the transaction, for a valid reference. */
  function RailClaim(h: HashFn, escrow: Escrow, secret: Text, now: int): RailOutcome {
    if !ValidHex32(secret) then WrongSecret
    else if escrow.NoEscrow? then NotFound
    else
      var opens := Sha256Hex(h, Lower32(secret)) == Lower(escrow.hashlock);
      if escrow.status == Released then if opens then AlreadySettled else WrongSecret
      else if escrow.status != Locked then NotLocked
      else if now >= escrow.refundTimestamp * 1000 then ClaimTooLate
      else if !opens then WrongSecret
      else Submitted
  }

  /** rail.refund up to the transaction, for a valid reference. */
  function RailRefund(escrow: Escrow, now: int): RailOutcome {
    if escrow.NoEscrow? then NotFound
    else if escrow.status == Returned then AlreadySettled
    else if escrow.status != Locked then NotLocked
    else if now < escrow.refundTimestamp * 1000 then RefundTooSoon
    else Submitted
  }

  lemma SecretCase(h: HashFn, secret: Text)
    requires ValidHex32(secret)
    ensures Sha256Hex(h, Lower32(secret)) == Sha256Hex(h, secret)
  {
    LowerTwice(secret);
  }

  /** A hashlock on the chain is 32 bytes, so its text is in lower case. */
  predicate OnChain(e: Escrow) {
    e.Held? ==> ValidHex32(e.hashlock) && Lower(e.hashlock) == e.hashlock
  }

  /** The rail submits exactly what the contract then accepts. */
  lemma {:induction false} RailAgreesWithContract(h: HashFn, escrow: Escrow, secret: Text, now: int)
    requires OnChain(escrow)
    ensures RailClaim(h, escrow, secret, now) == Submitted <==> HtlcClaims(h, escrow, secret, now)
    ensures RailRefund(escrow, now) == Submitted <==> HtlcRefunds(escrow, now)
  {
    hide Sha256Hex, Lower, ValidHex32;
    if ValidHex32(secret) {
      SecretCase(h, secret);
    }
  }

  /** On a locked escrow the claim window of the right secret and the refund window split time at one instant. */
  lemma {:induction false} WindowsPartitionTime(h: HashFn, escrow: Escrow, secret: Text, now: int)
    requires escrow.Held? && escrow.status == Locked && OnChain(escrow) && Opens(h, escrow, secret)
    ensures RailClaim(h, escrow, secret, now) == Submitted <==> RailRefund(escrow, now) != Submitted
    ensures RailRefund(escrow, now) == Submitted <==> now >= escrow.refundTimestamp * 1000
  {
    hide Sha256Hex, Lower, ValidHex32;
    SecretCase(h, secret);
  }

  /**
   * What rail.lock submits is accepted exactly when it can be encoded and the payee is not the zero address, and then
   * it verifies exactly when the sender is the agreed payer's address.
   */
  lemma {:induction false} HonestLockVerifies(env: Resolver, terms: Terms, window: int, now: int, account: Text)
    requires RailLock(env, terms, NoEscrow, window, now) == Submitted
    requires var payee, token := env.address(terms.payee).value, env.token(terms.asset).value;
      env.same(payee, payee) && env.same(token, token)
    ensures var o := RailOpening(env, terms, NoEscrow, window, now, account);
      var made := HtlcLock(NoEscrow, o, now);
      && (made.Some? <==> WellTyped(o) && !IsZeroAddress(o.payee))
      && (made.Some? ==>
            && OnChain(made.value) && Coupled(terms, made.value)
            && (VerifyLock(env, terms, terms.contract, made.value) <==>
                  env.address(terms.payer).Some? && env.same(account, env.address(terms.payer).value)))
  {
    hide Lower, ValidHex32, IsZeroAddress, IsAddress;
    DeadlineWindow(terms.refundAfterMs);
    LowerTwice(terms.statement);
    LowerTwice(Lower(terms.statement));
  }
}
