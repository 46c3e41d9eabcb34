/** The deal object: each method guards, then updates the record field by field. */
module DealManagers {
  import opened Options
  import opened Bytes
  import opened Text
  import opened Frames
  import opened Hex
  import opened Deal

  /** The record after a call: the new one, or the old one if the call threw. */
  function Settle(before: Record, outcome: Outcome): Record {
    match outcome case Done(r) => r case Threw(_) => before
  }

  function Thrown(outcome: Outcome): Option<Error> {
    match outcome case Done(_) => None case Threw(e) => Some(e)
  }

  class DealManager {
    var record: Record

    constructor (initial: Record)
      ensures record == initial
    {
      record := initial;
    }

    /** createOffer: a new object, or an exception and no object. */
    static method Create(h: HashFn, bigInt: Text -> Option<int>, p: OfferParams)
      returns (deal: DealManager?, error: Option<Error>)
      ensures error == Thrown(CreateOffer(h, bigInt, p))
      ensures error.Some? <==> deal == null
      ensures deal != null ==> fresh(deal) && Done(deal.record) == CreateOffer(h, bigInt, p)
    {
      if |p.room| == 0 {
        return null, Some(RoomRequired);
      }
      if |p.creator.did| == 0 {
        return null, Some(CreatorRequired);
      }
      if p.claimByMs >= p.refundAfterMs {
        return null, Some(DeadlinesOutOfOrder);
      }
      if p.now >= p.expiresMs {
        return null, Some(OfferExpired);
      }
      var amount := bigInt(p.amount);
      if amount.None? {
        return null, Some(AmountNotAnInteger);
      }
      if amount.value <= 0 {
        return null, Some(AmountNotPositive);
      }
      var offer := DraftOffer(p);
      var id := ComputeOfferId(h, offer);
      if id.None? {
        return null, Some(UnsupportedOffer);
      }
      var payer, payee := Participant([], None), Participant([], None);
      if p.counterparty.Some? {
        payer, payee := p.counterparty.value, p.counterparty.value;
      }
      if p.role == Payer {
        payer := p.creator;
      } else {
        payee := p.creator;
      }
      deal := new DealManager(Record([], p.room, OFFERED, payer, payee, None, offer.(id := id.value), None, None, None,
                                     false, None, p.now, p.now, None, map[], map[]));
      return deal, None;
    }

    method Accept(h: HashFn, a: Deal.Accept, evm: Option<Text>, now: int) returns (error: Option<Error>)
      modifies this
      ensures error == Thrown(ApplyAccept(h, old(record), a, evm, now))
      ensures record == Settle(old(record), ApplyAccept(h, old(record), a, evm, now))
    {
      if record.status == ACCEPTED {
        if Lower(record.contractId) == Lower(a.contract) {
          return None;
        }
        return Some(BadTransition(record.status, ACCEPTED));
      }
      if record.status != OFFERED {
        return Some(BadTransition(record.status, ACCEPTED));
      }
      if a.core.ref != record.offer.id {
        return Some(RefMismatch);
      }
      if a.core.from == record.offer.from {
        return Some(SelfAccept);
      }
      if now >= record.offer.expiresMs {
        return Some(AcceptExpired);
      }
      if !ValidHex32(a.core.statement) {
        return Some(BadStatement);
      }
      var expected := ComputeContractId(h, record.offer, NormalizedCore(a.core));
      if expected.None? {
        return Some(UnsupportedOffer);
      }
      if Lower(a.contract) != Lower(expected.value) {
        return Some(ContractMismatch);
      }
      var terms := ProjectLockTerms(record.offer, a);
      if terms.claimByMs >= terms.refundAfterMs {
        return Some(DeadlinesOutOfOrder);
      }
      if record.offer.role == Payer {
        record := record.(payee := Participant(a.core.from, evm));
      } else {
        record := record.(payer := Participant(a.core.from, evm));
      }
      record := record.(contractId := expected.value);
      record := record.(accept := Some(a));
      record := record.(terms := Some(terms));
      record := record.(status := ACCEPTED);
      record := record.(updatedAtMs := now);
      return None;
    }

    method Lock(l: Deal.Lock, now: int) returns (error: Option<Error>)
      modifies this
      ensures error == Thrown(ApplyLock(old(record), l, now))
      ensures record == Settle(old(record), ApplyLock(old(record), l, now))
    {
      if record.status == LOCKED {
        if record.ref == Some(l.ref) && record.rail == Some(l.rail) {
          return None;
        }
        return Some(BadTransition(record.status, LOCKED));
      }
      if record.status != ACCEPTED {
        return Some(BadTransition(record.status, LOCKED));
      }
      if Lower(l.contract) != Lower(record.contractId) {
        return Some(ContractMismatch);
      }
      if l.from != record.payer.did {
        return Some(OnlyPayer);
      }
      if l.rail !in record.offer.rails {
        return Some(RailNotOffered);
      }
      if record.terms.Some? && now >= record.terms.value.refundAfterMs {
        return Some(LockTooLate);
      }
      record := record.(rail := Some(l.rail));
      record := record.(ref := Some(l.ref));
      record := record.(status := LOCKED);
      record := record.(updatedAtMs := now);
      return None;
    }

    method Verify(ref: Option<Text>, now: int) returns (error: Option<Error>)
      modifies this
      ensures error == Thrown(MarkVerified(old(record), ref, now))
      ensures record == Settle(old(record), MarkVerified(old(record), ref, now))
    {
      if record.status == VERIFIED {
        if ref.None? || ref == record.ref {
          return None;
        }
        return Some(BadTransition(record.status, VERIFIED));
      }
      if record.status != LOCKED {
        return Some(BadTransition(record.status, VERIFIED));
      }
      if ref.Some? && ref != record.ref {
        return Some(VerifiedRefMismatch);
      }
      record := record.(status := VERIFIED);
      record := record.(updatedAtMs := now);
      return None;
    }

    method Reveal(h: HashFn, secret: Text, from: Text, now: int) returns (error: Option<Error>)
      modifies this
      ensures error == Thrown(ApplyReveal(h, old(record), secret, from, now))
      ensures record == Settle(old(record), ApplyReveal(h, old(record), secret, from, now))
    {
      if !ValidHex32(secret) {
        return Some(BadSecret);
      }
      var hash := Sha256Hex(h, secret);
      if record.status == REVEALED {
        if record.secretHash == Some(hash) {
          return None;
        }
        return Some(BadTransition(record.status, REVEALED));
      }
      if record.status != VERIFIED && record.status != LOCKED {
        return Some(BadTransition(record.status, REVEALED));
      }
      if from != record.payee.did {
        return Some(OnlyPayee);
      }
      if record.terms.None? || hash != Lower(record.terms.value.statement) {
        return Some(SecretDoesNotOpen);
      }
      if now >= record.terms.value.refundAfterMs {
        return Some(RevealTooLate);
      }
      record := record.(secretRevealed := true);
      record := record.(secretHash := Some(hash));
      record := record.(status := REVEALED);
      record := record.(updatedAtMs := now);
      return None;
    }

    method Claim(now: int) returns (error: Option<Error>)
      modifies this
      ensures error == Thrown(ApplyClaim(old(record), now))
      ensures record == Settle(old(record), ApplyClaim(old(record), now))
    {
      if record.status == CLAIMED {
        return None;
      }
      if record.status != REVEALED {
        return Some(BadTransition(record.status, CLAIMED));
      }
      record := record.(status := CLAIMED);
      record := record.(updatedAtMs := now);
      return None;
    }

    method Refund(from: Text, now: int) returns (error: Option<Error>)
      modifies this
      ensures error == Thrown(ApplyRefund(old(record), from, now))
      ensures record == Settle(old(record), ApplyRefund(old(record), from, now))
    {
      if record.status == REFUNDED {
        return None;
      }
      if record.status != LOCKED && record.status != VERIFIED && record.status != REVEALED {
        return Some(BadTransition(record.status, REFUNDED));
      }
      if from != record.payer.did {
        return Some(OnlyPayer);
      }
      if record.terms.Some? && now < record.terms.value.refundAfterMs {
        return Some(RefundTooEarly);
      }
      record := record.(status := REFUNDED);
      record := record.(updatedAtMs := now);
      return None;
    }

    method Cancel(from: Text, now: int) returns (error: Option<Error>)
      modifies this
      ensures error == Thrown(ApplyCancel(old(record), from, now))
      ensures record == Settle(old(record), ApplyCancel(old(record), from, now))
    {
      if record.status == CANCELLED {
        return None;
      }
      if record.status != OFFERED && record.status != ACCEPTED {
        return Some(BadTransition(record.status, CANCELLED));
      }
      if from != record.payer.did && from != record.payee.did && from != record.offer.from {
        return Some(NotAParticipant);
      }
      record := record.(status := CANCELLED);
      record := record.(updatedAtMs := now);
      return None;
    }

    method TakeReceipt(receipt: Receipt, now: int) returns (error: Option<Error>)
      modifies this
      ensures error == Thrown(ApplyReceipt(old(record), receipt, now))
      ensures record == Settle(old(record), ApplyReceipt(old(record), receipt, now))
    {
      if !IsTerminal(record.status) {
        return Some(NotTerminal);
      }
      if Lower(receipt.contract) != Lower(record.contractId) {
        return Some(ContractMismatch);
      }
      if SettlementStatus(receipt.outcome) != record.status {
        return Some(OutcomeMismatch);
      }
      record := record.(receipt := Some(receipt));
      record := record.(updatedAtMs := now);
      return None;
    }

    method RecordLedgerSequence(stage: Stage, seqNo: int, hash: Text)
      modifies this
      ensures record == RecordSequence(old(record), stage, seqNo, hash)
    {
      record := record.(sequences := record.sequences[stage := seqNo]);
      if hash != [] {
        record := record.(hashes := record.hashes[stage := hash]);
      }
    }
  }
}
