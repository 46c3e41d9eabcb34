/** Every run of a deal: what each step keeps, and what a final status says about the past. */
module DealRuns {
  import opened Options
  import opened Bytes
  import opened Text
  import opened Frames
  import opened Hex
  import opened Deal
  import opened DealManagers

  datatype Event =
    | EAccept(a: Accept, evm: Option<Text>, now: int)
    | ELock(l: Lock, now: int)
    | EVerify(ref: Option<Text>, now: int)
    | EReveal(secret: Text, from: Text, now: int)
    | EClaim(now: int)
    | ERefund(from: Text, now: int)
    | ECancel(from: Text, now: int)
    | EReceipt(receipt: Receipt, now: int)
    | ELedger(stage: Stage, seqNo: int, hash: Text)

  function Apply(h: HashFn, r: Record, e: Event): Outcome {
    match e
    case EAccept(a, evm, now) => ApplyAccept(h, r, a, evm, now)
    case ELock(l, now) => ApplyLock(r, l, now)
    case EVerify(ref, now) => MarkVerified(r, ref, now)
    case EReveal(secret, from, now) => ApplyReveal(h, r, secret, from, now)
    case EClaim(now) => ApplyClaim(r, now)
    case ERefund(from, now) => ApplyRefund(r, from, now)
    case ECancel(from, now) => ApplyCancel(r, from, now)
    case EReceipt(receipt, now) => ApplyReceipt(r, receipt, now)
    case ELedger(stage, seqNo, hash) => Done(RecordSequence(r, stage, seqNo, hash))
  }

  function Next(h: HashFn, r: Record, e: Event): Record {
    Settle(r, Apply(h, r, e))
  }

  /** A run: each event is applied; one that throws changes nothing. */
  function Run(h: HashFn, r: Record, events: seq<Event>): Record {
    if events == [] then r
    else Next(h, Run(h, r, events[..|events| - 1]), events[|events| - 1])
  }

  function Rank(s: Status): nat {
    match s
    case OFFERED => 0
    case ACCEPTED => 1
    case LOCKED => 2
    case VERIFIED => 3
    case REVEALED => 4
    case _ => 5
  }

  // ---- the invariant ----

  /** The agreed part of a record: terms, contract id and parties all follow from the offer and the accept. */
  predicate Agreed(h: HashFn, r: Record) {
    && r.accept.Some? && ValidHex32(r.accept.value.core.statement)
    && r.accept.value.core.ref == r.offer.id
    && r.accept.value.core.from != r.offer.from
    && ComputeContractId(h, r.offer, NormalizedCore(r.accept.value.core)) == Some(r.contractId)
    && Lower(r.accept.value.contract) == Lower(r.contractId)
    && r.terms == Some(ProjectLockTerms(r.offer, r.accept.value))
    && r.payer.did == r.terms.value.payer && r.payee.did == r.terms.value.payee
    && r.payer.did != r.payee.did
    && r.terms.value.claimByMs < r.terms.value.refundAfterMs
  }

  predicate Unagreed(r: Record) {
    && r.accept.None? && r.terms.None? && r.contractId == []
    && (if r.offer.role == Payer then r.payer.did else r.payee.did) == r.offer.from
  }

  predicate Unlocked(r: Record) {
    r.rail.None? && r.ref.None?
  }

  predicate Inv(h: HashFn, r: Record) {
    && ComputeOfferId(h, r.offer) == Some(r.offer.id)
    && r.offer.claimByMs < r.offer.refundAfterMs
    && (r.status == OFFERED ==> Unagreed(r) && Unlocked(r))
    && (r.status == CANCELLED ==> (Unagreed(r) || Agreed(h, r)) && Unlocked(r))
    && (r.status == ACCEPTED ==> Agreed(h, r) && Unlocked(r))
    && (r.status !in {OFFERED, ACCEPTED, CANCELLED} ==>
          && Agreed(h, r)
          && r.rail.Some? && r.rail.value in r.offer.rails && r.ref.Some?)
    && (r.secretRevealed <==> r.secretHash.Some?)
    && (r.status in {REVEALED, CLAIMED} ==> r.secretHash.Some?)
    && (r.secretHash.Some? ==>
          r.status in {REVEALED, CLAIMED, REFUNDED} && r.secretHash.value == Lower(r.terms.value.statement))
    && (r.receipt.Some? ==> SettlementStatus(r.receipt.value.outcome) == r.status)
  }

  /** computeOfferId ignores the id, so it recomputes from the finished offer. */
  lemma OfferIdIgnoresId(h: HashFn, o: Offer, id: Text)
    ensures ComputeOfferId(h, o.(id := id)) == ComputeOfferId(h, o)
  {
    assert OfferValues(o.(id := id)) == OfferValues(o);
  }

  lemma {:induction false} CreateEstablishesInv(h: HashFn, bigInt: Text -> Option<int>, p: OfferParams)
    requires CreateOffer(h, bigInt, p).Done?
    ensures Inv(h, CreateOffer(h, bigInt, p).record)
    ensures CreateOffer(h, bigInt, p).record.status == OFFERED
  {
    hide ComputeOfferId;
    var draft := DraftOffer(p);
    OfferIdIgnoresId(h, draft, ComputeOfferId(h, draft).value);
  }

  lemma {:induction false} StepKeepsInv(h: HashFn, r: Record, e: Event)
    requires Inv(h, r)
    ensures Inv(h, Next(h, r, e))
  {
    hide Inv, ApplyAccept, ApplyLock, ApplyReveal;
    match e {
      case EAccept(a, evm, now) => AcceptKeepsInv(h, r, a, evm, now);
      case ELock(l, now) => LockKeepsInv(h, r, l, now);
      case EReveal(secret, from, now) => RevealKeepsInv(h, r, secret, from, now);
      case _ => OthersKeepInv(h, r, e);
    }
  }

  lemma {:induction false} AcceptKeepsInv(h: HashFn, r: Record, a: Accept, evm: Option<Text>, now: int)
    requires Inv(h, r)
    ensures Inv(h, Settle(r, ApplyAccept(h, r, a, evm, now)))
  {
    hide ComputeOfferId, ComputeContractId, Lower, ValidHex32, Sha256Hex, NormalizedCore;
  }

  lemma {:induction false} LockKeepsInv(h: HashFn, r: Record, l: Lock, now: int)
    requires Inv(h, r)
    ensures Inv(h, Settle(r, ApplyLock(r, l, now)))
  {
    hide ComputeOfferId, Agreed, Unagreed, Lower, ValidHex32;
    AgreedIgnoresLock(h, r, l, now);
  }

  lemma AgreedIgnoresLock(h: HashFn, r: Record, l: Lock, now: int)
    ensures Agreed(h, r) ==> Agreed(h, Settle(r, ApplyLock(r, l, now)))
    ensures Unagreed(r) ==> Unagreed(Settle(r, ApplyLock(r, l, now)))
  {
    hide ComputeContractId, Lower, ValidHex32, NormalizedCore, ProjectLockTerms;
  }

  lemma {:induction false} RevealKeepsInv(h: HashFn, r: Record, secret: Text, from: Text, now: int)
    requires Inv(h, r)
    ensures Inv(h, Settle(r, ApplyReveal(h, r, secret, from, now)))
  {
    hide ComputeOfferId, ComputeContractId, Lower, ValidHex32, Sha256Hex, NormalizedCore, ProjectLockTerms;
  }

  lemma {:induction false} OthersKeepInv(h: HashFn, r: Record, e: Event)
    requires Inv(h, r) && !e.EAccept? && !e.ELock? && !e.EReveal?
    ensures Inv(h, Next(h, r, e))
  {
    hide ComputeOfferId, ComputeContractId, Lower, ValidHex32, NormalizedCore, ProjectLockTerms, ApplyAccept, ApplyLock,
      ApplyReveal;
  }

  lemma {:induction false} RunKeepsInv(h: HashFn, r: Record, events: seq<Event>)
    requires Inv(h, r)
    ensures Inv(h, Run(h, r, events))
  {
    hide Inv, Next;
    if events != [] {
      RunKeepsInv(h, r, events[..|events| - 1]);
      StepKeepsInv(h, Run(h, r, events[..|events| - 1]), events[|events| - 1]);
    }
  }

  // ---- monotonicity ----

  /** The part of a record that no step changes once the offer is accepted. */
  predicate SameAgreement(r: Record, s: Record) {
    && s.offer == r.offer && s.room == r.room && s.createdAtMs == r.createdAtMs
    && (r.accept.Some? ==>
          s.accept == r.accept && s.terms == r.terms && s.contractId == r.contractId
          && s.payer == r.payer && s.payee == r.payee)
    && (r.ref.Some? ==> s.ref == r.ref && s.rail == r.rail)
    && (r.secretHash.Some? ==> s.secretHash == r.secretHash)
  }

  /** A status change strictly raises the rank, a terminal status absorbs, and what was agreed stays. */
  predicate Advances(r: Record, s: Record) {
    && (s.status != r.status ==> Rank(s.status) > Rank(r.status))
    && (IsTerminal(r.status) ==> s.status == r.status)
    && SameAgreement(r, s)
  }

  lemma StepClimbs(h: HashFn, r: Record, e: Event)
    ensures var s := Next(h, r, e);
      && (s.status != r.status ==> Rank(s.status) > Rank(r.status))
      && (IsTerminal(r.status) ==> s.status == r.status)
  {
    hide ComputeContractId, Lower, ValidHex32, Sha256Hex, NormalizedCore, ProjectLockTerms;
  }

  lemma {:induction false} StepKeepsAgreement(h: HashFn, r: Record, e: Event)
    requires Inv(h, r)
    ensures SameAgreement(r, Next(h, r, e))
  {
    hide ComputeOfferId, ComputeContractId, Lower, ValidHex32, Sha256Hex, NormalizedCore, ProjectLockTerms, Agreed;
  }

  lemma {:induction false} StepAdvances(h: HashFn, r: Record, e: Event)
    requires Inv(h, r)
    ensures Advances(r, Next(h, r, e))
  {
    hide Inv, Next, SameAgreement;
    StepClimbs(h, r, e);
    StepKeepsAgreement(h, r, e);
  }

  lemma AdvancesIsTransitive(a: Record, b: Record, c: Record)
    requires Advances(a, b) && Advances(b, c)
    ensures Advances(a, c)
  {
  }

  lemma RunUnfolds(h: HashFn, r: Record, events: seq<Event>)
    requires events != []
    ensures Run(h, r, events) == Next(h, Run(h, r, events[..|events| - 1]), events[|events| - 1])
  {
  }

  /** Between any two moments of any run the status only climbs and the agreement stands. */
  lemma {:induction false} RunAdvances(h: HashFn, r: Record, events: seq<Event>, i: nat)
    requires Inv(h, r) && i <= |events|
    ensures Advances(Run(h, r, events[..i]), Run(h, r, events))
    decreases |events|
  {
    hide Inv, Next, Advances, Run;
    var n := |events| - 1;
    if i == |events| {
      assert events[..i] == events;
      AdvancesIsReflexive(Run(h, r, events));
    } else {
      RunAdvances(h, r, events[..n], i);
      assert events[..n][..i] == events[..i];
      RunKeepsInv(h, r, events[..n]);
      StepAdvances(h, Run(h, r, events[..n]), events[n]);
      RunUnfolds(h, r, events);
      AdvancesIsTransitive(Run(h, r, events[..i]), Run(h, r, events[..n]), Run(h, r, events));
    }
  }

  lemma AdvancesIsReflexive(r: Record)
    ensures Advances(r, r)
  {
  }

  // ---- what was agreed ----

  /** Field by field, where the terms come from: the offer's creator has the role the offer names. */
  predicate TermsOf(o: Offer, a: Accept, t: Terms) {
    && t.contract == a.contract && t.statement == a.core.statement
    && t.lock == o.lock && t.amount == o.amount && t.asset == o.asset
    && t.claimByMs == o.claimByMs && t.refundAfterMs == o.refundAfterMs
    && (o.role == Payer ==> t.payer == o.from && t.payee == a.core.from)
    && (o.role == Payee ==> t.payee == o.from && t.payer == a.core.from)
  }

  /** An accept that returns on an offered deal fixes every term, and the other party under its own address. */
  lemma {:induction false} AcceptFixesTerms(h: HashFn, r: Record, a: Accept, evm: Option<Text>, now: int)
    requires r.status == OFFERED && ApplyAccept(h, r, a, evm, now).Done?
    ensures var s := ApplyAccept(h, r, a, evm, now).record;
      && s.status == ACCEPTED && s.offer == r.offer && s.accept == Some(a)
      && s.terms.Some? && TermsOf(r.offer, a, s.terms.value)
      && (r.offer.role == Payer ==> s.payer == r.payer && s.payee == Participant(a.core.from, evm))
      && (r.offer.role == Payee ==> s.payee == r.payee && s.payer == Participant(a.core.from, evm))
  {
    hide ComputeContractId, Lower, ValidHex32, NormalizedCore;
  }

  /** At every moment of every run the terms are those of the first offer and the one accept, the parties theirs. */
  lemma {:induction false} RunKeepsTerms(h: HashFn, r: Record, events: seq<Event>)
    requires Inv(h, r) && r.status == OFFERED
    ensures var s := Run(h, r, events);
      && s.offer == r.offer
      && (s.terms.Some? <==> s.accept.Some?)
      && (s.terms.Some? ==>
            && TermsOf(r.offer, s.accept.value, s.terms.value)
            && s.payer.did == s.terms.value.payer && s.payee.did == s.terms.value.payee
            && s.accept.value.core.ref == r.offer.id)
  {
    hide ComputeOfferId, ComputeContractId, Lower, ValidHex32, NormalizedCore, Next, Run;
    EmptyRun(h, r);
    assert events[..0] == [];
    RunAdvances(h, r, events, 0);
    RunKeepsInv(h, r, events);
  }

  // ---- what a status says about the past ----

  /** At moment i of the run, event i moved the deal from status a to status b. */
  predicate Moved(h: HashFn, r: Record, events: seq<Event>, i: nat, a: set<Status>, b: Status)
    requires i < |events|
  {
    Run(h, r, events[..i]).status in a && Run(h, r, events[..i + 1]).status == b
  }

  /** Whoever is in a status that an event had to reach was moved there at some moment. */
  lemma {:induction false} StatusWasReached(h: HashFn, r: Record, events: seq<Event>) returns (i: nat)
    requires Inv(h, r)
    requires Run(h, r, events).status != r.status
    ensures i < |events|
    ensures Run(h, r, events[..i]).status != Run(h, r, events).status
    ensures Run(h, r, events[..i + 1]).status == Run(h, r, events).status
    ensures Run(h, r, events[..i + 1]) == Next(h, Run(h, r, events[..i]), events[i])
    ensures Inv(h, Run(h, r, events[..i]))
    decreases |events|
  {
    hide Inv, Next, Run;
    if events == [] {
      EmptyRun(h, r);
      assert false;
    }
    var n := |events| - 1;
    var before := events[..n];
    RunKeepsInv(h, r, before);
    RunUnfolds(h, r, events);
    assert events[..n + 1] == events;
    if Run(h, r, before).status == Run(h, r, events).status {
      i := StatusWasReached(h, r, before);
      assert before[..i] == events[..i] && before[..i + 1] == events[..i + 1];
    } else {
      i := n;
    }
  }

  lemma EmptyRun(h: HashFn, r: Record)
    ensures Run(h, r, []) == r
  {
  }

  /** The reveal that a claim rests on: by the payee, opening the statement, strictly before the deadline. */
  predicate OpeningReveal(h: HashFn, r: Record, e: Event) {
    && e.EReveal? && ValidHex32(e.secret)
    && r.status in {LOCKED, VERIFIED}
    && r.terms.Some? && e.from == r.terms.value.payee
    && Sha256Hex(h, e.secret) == Lower(r.terms.value.statement)
    && e.now < r.terms.value.refundAfterMs
  }

  lemma {:induction false} RevealMoves(h: HashFn, r: Record, e: Event)
    requires Inv(h, r) && r.status != REVEALED && Next(h, r, e).status == REVEALED
    ensures OpeningReveal(h, r, e)
  {
    hide ComputeOfferId, ComputeContractId, Lower, ValidHex32, Sha256Hex, NormalizedCore;
  }

  lemma ClaimMoves(h: HashFn, r: Record, e: Event)
    requires r.status != CLAIMED && Next(h, r, e).status == CLAIMED
    ensures e.EClaim? && r.status == REVEALED
  {
    hide ComputeContractId, Lower, ValidHex32, Sha256Hex;
  }

  lemma {:induction false} RefundMoves(h: HashFn, r: Record, e: Event)
    requires Inv(h, r) && r.status != REFUNDED && Next(h, r, e).status == REFUNDED
    ensures e.ERefund? && r.status in {LOCKED, VERIFIED, REVEALED}
    ensures r.terms.Some? && e.from == r.terms.value.payer && e.now >= r.terms.value.refundAfterMs
  {
    hide ComputeOfferId, ComputeContractId, Lower, ValidHex32, Sha256Hex, NormalizedCore;
  }

  /** A revealed deal was opened by its payee before the deadline of the terms it still carries. */
  lemma {:induction false} RevealedMeansOpened(h: HashFn, r: Record, events: seq<Event>) returns (j: nat)
    requires Inv(h, r) && r.status == OFFERED && Run(h, r, events).status == REVEALED
    ensures j < |events| && OpeningReveal(h, Run(h, r, events[..j]), events[j])
    ensures Inv(h, Run(h, r, events[..j]))
    ensures Run(h, r, events[..j]).terms == Run(h, r, events).terms
  {
    hide Inv, Next, Run, OpeningReveal;
    j := StatusWasReached(h, r, events);
    RevealMoves(h, Run(h, r, events[..j]), events[j]);
    OpeningHasTerms(h, Run(h, r, events[..j]), events[j]);
    RunAdvances(h, r, events, j);
  }

  lemma {:induction false} OpeningHasTerms(h: HashFn, r: Record, e: Event)
    requires Inv(h, r) && OpeningReveal(h, r, e)
    ensures r.accept.Some? && r.terms.Some?
  {
  }

  /**
   * Safety of the payee's side, over whole runs: a claimed deal was claimed at some moment k, and at an earlier
   * moment j its payee revealed a secret that opens the statement, strictly before refundAfterMs.
   */
  lemma {:induction false} ClaimedMeansRevealed(h: HashFn, r: Record, events: seq<Event>) returns (j: nat, k: nat)
    requires Inv(h, r) && r.status == OFFERED && Run(h, r, events).status == CLAIMED
    ensures j < k < |events| && events[k].EClaim?
    ensures OpeningReveal(h, Run(h, r, events[..j]), events[j])
    ensures Run(h, r, events[..j]).terms == Run(h, r, events).terms
  {
    hide Inv, Next, Run, OpeningReveal;
    k := StatusWasReached(h, r, events);
    ClaimMoves(h, Run(h, r, events[..k]), events[k]);
    j := RevealedMeansOpened(h, r, events[..k]);
    assert events[..k][..j] == events[..j];
    OpeningHasTerms(h, Run(h, r, events[..j]), events[j]);
    RunAdvances(h, r, events, j);
  }

  /** Safety of the payer's side: a refunded deal was refunded by its payer, at or after refundAfterMs. */
  lemma {:induction false} RefundedMeansExpired(h: HashFn, r: Record, events: seq<Event>) returns (k: nat)
    requires Inv(h, r) && r.status == OFFERED && Run(h, r, events).status == REFUNDED
    ensures k < |events| && events[k].ERefund?
    ensures Run(h, r, events).terms.Some?
    ensures events[k].from == Run(h, r, events).terms.value.payer
    ensures events[k].now >= Run(h, r, events).terms.value.refundAfterMs
  {
    hide Inv, Next, Run;
    k := StatusWasReached(h, r, events);
    RefundMoves(h, Run(h, r, events[..k]), events[k]);
    TermsMeanAccepted(h, Run(h, r, events[..k]));
    RunAdvances(h, r, events, k);
  }

  lemma {:induction false} TermsMeanAccepted(h: HashFn, r: Record)
    requires Inv(h, r) && r.terms.Some?
    ensures r.accept.Some?
  {
  }

  /** A cancelled deal never had a lock: at no moment of the run was a reference or a rail recorded. */
  lemma {:induction false} CancelledMeansNeverLocked(h: HashFn, r: Record, events: seq<Event>, i: nat)
    requires Inv(h, r) && Run(h, r, events).status == CANCELLED && i <= |events|
    ensures Run(h, r, events[..i]).ref.None? && Run(h, r, events[..i]).rail.None?
    ensures Run(h, r, events[..i]).status in {OFFERED, ACCEPTED, CANCELLED}
  {
    RunKeepsInv(h, r, events);
    RunKeepsInv(h, r, events[..i]);
    RunAdvances(h, r, events, i);
  }

  /**
   * Claim and refund exclude each other for good: once a run has settled one way, no continuation settles the other.
   */
  lemma {:induction false} SettlesOnce(h: HashFn, r: Record, events: seq<Event>, i: nat)
    requires Inv(h, r) && i <= |events|
    requires IsTerminal(Run(h, r, events[..i]).status)
    ensures Run(h, r, events).status == Run(h, r, events[..i]).status
    ensures Run(h, r, events).secretHash == Run(h, r, events[..i]).secretHash
      || Run(h, r, events[..i]).secretHash.None?
  {
    hide Inv, Run;
    RunAdvances(h, r, events, i);
  }
}
