/** Settlement evidence from a lock receipt and at most one settling receipt. */
module Settlement {
  import opened Options
  import opened PyHex
  import opened Receipts
  import opened ReceiptLaws
  import opened AbiRoundTrip

  /** The node's answer for a transaction: the receipt and the hash it says it is for. */
  datatype Answer = Answer(hash: Option<string>, receipt: Receipt)

  type Rpc = string -> Option<Answer>

  datatype Status = EscrowLocked | EscrowClaimed | EscrowRefunded

  datatype Evidence = Evidence(status: Status, cid: Option<string>, contract: string, payer: string, payee: string,
    asset: Option<string>, amount: nat, hashlock: Option<string>, refundTimestamp: nat, secret: Option<string>,
      block: int, transferVerified: bool)

  /** An optional argument that is absent or empty is not given. */
  function Given(tx: Option<string>): Option<string> {
    if tx == Some("") then None else tx
  }

  /** fetch_transaction_receipt: the answer must be for the transaction asked about. */
  function Fetch(rpc: Rpc, tx: string): Option<Receipt> {
    var hash := NormalizeHex(Some(tx));
    if hash.None? || |hash.value| != 66 then None
    else
      var answer := rpc(hash.value);
      if answer.None? || NormalizeHex(answer.value.hash) != hash then None else Some(answer.value.receipt)
  }

  /** A receipt is used only if the node says that it is for the transaction asked about, a 32-byte hash. */
  lemma {:induction false} FetchedIsAsked(rpc: Rpc, tx: string, rc: Receipt)
    requires Fetch(rpc, tx) == Some(rc)
    ensures exists hash, said ::
      && NormalizeHex(Some(tx)) == Some(hash) && |hash| == 66
      && rpc(hash) == Some(Answer(said, rc)) && NormalizeHex(said) == Some(hash)
  {
    hide NormalizeHex;
    var hash := NormalizeHex(Some(tx)).value;
    assert rpc(hash) == Some(Answer(rpc(hash).value.hash, rc));
  }

  /** The event of one kind in a transaction's receipt. */
  function FetchEvent(rpc: Rpc, tx: string, htlc: Option<string>, cid: Option<string>, kind: string): Result<Event> {
    var receipt := Fetch(rpc, tx);
    if receipt.None? then Err else Parsed(receipt.value, htlc, cid, Some(kind))
  }

  /** A settling event that is not earlier than the lock; given both settlements, or neither, there is no such pair. */
  function Settled(rpc: Rpc, tx: string, lock: Event, expectedCid: Option<string>, kind: string): Result<Event> {
    var e := FetchEvent(rpc, tx, Some(lock.contract), if lock.cid.Some? then lock.cid else expectedCid, kind);
    if e.Err? || e.value.block < lock.block then Err else e
  }

  function FromLock(lock: Event): Evidence
    requires lock.Locked?
  {
    Evidence(EscrowLocked, lock.cid, lock.contract, lock.payer, lock.payee, lock.token, lock.amount, lock.hashlock,
             lock.refundTimestamp, None, lock.block, lock.transferVerified)
  }

  /** The evidence as a function of the lock and the settlement. */
  function Built(rpc: Rpc, lock: Event, claimTx: Option<string>, refundTx: Option<string>, expectedCid: Option<string>)
    : Result<Evidence>
    requires lock.Locked?
  {
    var claim, refund := Given(claimTx), Given(refundTx);
    if claim.None? && refund.None? then Ok(FromLock(lock))
    else if claim.Some? && refund.Some? then Err
    else if claim.Some? then
      var e := Settled(rpc, claim.value, lock, expectedCid, "Claimed");
      if e.Err? || !e.value.Claimed? then Err
      else Ok(FromLock(lock).(status := EscrowClaimed, cid := if lock.cid.Some? then lock.cid else e.value.cid,
                              secret := e.value.secret, block := e.value.block))
    else
      var e := Settled(rpc, refund.value, lock, expectedCid, "Refunded");
      if e.Err? then Err
      else Ok(FromLock(lock).(status := EscrowRefunded, cid := if lock.cid.Some? then lock.cid else e.value.cid,
                              block := e.value.block))
  }

  /** parse_and_verify_htlc_event on a fetched receipt. */
  method FetchAndParse(rpc: Rpc, tx: string, htlc: Option<string>, cid: Option<string>, kind: string)
    returns (r: Result<Event>)
    ensures r == FetchEvent(rpc, tx, htlc, cid, kind)
  {
    var receipt := Fetch(rpc, tx);
    if receipt.None? {
      return Err;
    }
    r := ParseAndVerifyHtlcEvent(receipt.value, htlc, cid, Some(kind));
  }

  /** build_rpc_settlement_evidence, with the node's chain id and receipts as parameters. */
  method BuildRpcSettlementEvidence(rpc: Rpc, chain: int, lockTx: Option<string>, claimTx: Option<string>,
    refundTx: Option<string>, expectedHtlc: Option<string>, expectedCid: Option<string>, expectedChain: Option<int>)
    returns (r: Result<Evidence>)
    ensures Given(lockTx).None? || expectedChain != Some(chain) ==> r.Err?
    ensures Given(lockTx).Some? && expectedChain == Some(chain) ==>
      var lock := FetchEvent(rpc, Given(lockTx).value, expectedHtlc, expectedCid, "Locked");
      if lock.Err? then r.Err?
      else lock.value.Locked? && r == Built(rpc, lock.value, claimTx, refundTx, expectedCid)
  {
    hide FetchEvent, NormalizeAddress, NormalizeHex, Given;
    if Given(lockTx).None? || expectedChain != Some(chain) {
      return Err;
    }
    var lock := FetchAndParse(rpc, Given(lockTx).value, expectedHtlc, expectedCid, "Locked");
    if lock.Err? {
      return Err;
    }
    EventKind(rpc, Given(lockTx).value, expectedHtlc, expectedCid, KLocked, lock.value);
    r := ConcludeFromLock(rpc, lock.value, claimTx, refundTx, expectedCid);
  }

  /** The rest of build_rpc_settlement_evidence, once the lock is read. */
  method ConcludeFromLock(rpc: Rpc, lock: Event, claimTx: Option<string>, refundTx: Option<string>,
    expectedCid: Option<string>) returns (r: Result<Evidence>)
    requires lock.Locked?
    ensures r == Built(rpc, lock, claimTx, refundTx, expectedCid)
  {
    hide FetchEvent, NormalizeAddress, NormalizeHex, Given;
    var cid, htlc := lock.cid, Some(lock.contract);
    var claim, refund: Option<Event> := None, None;
    if Given(claimTx).Some? {
      var expected := if cid.Some? then cid else expectedCid;
      var e := FetchAndParse(rpc, Given(claimTx).value, htlc, expected, "Claimed");
      if e.Err? {
        return Err;
      }
      EventKind(rpc, Given(claimTx).value, htlc, expected, KClaimed, e.value);
      claim := Some(e.value);
      if cid.None? {
        cid := e.value.cid;
      }
    }
    if Given(refundTx).Some? {
      var e := FetchAndParse(rpc, Given(refundTx).value, htlc, if cid.Some? then cid else expectedCid, "Refunded");
      if e.Err? {
        return Err;
      }
      refund := Some(e.value);
      if cid.None? {
        cid := e.value.cid;
      }
    }
    if claim.Some? && refund.Some? {
      return Err;
    }
    if claim.Some? && claim.value.block < lock.block {
      return Err;
    }
    if refund.Some? && refund.value.block < lock.block {
      return Err;
    }
    var status, secret: Option<string> := EscrowLocked, None;
    if claim.Some? {
      status, secret := EscrowClaimed, claim.value.secret;
    } else if refund.Some? {
      status := EscrowRefunded;
    }
    var block := if claim.Some? then claim.value.block else if refund.Some? then refund.value.block else lock.block;
    return Ok(Evidence(status, cid, lock.contract, lock.payer, lock.payee, lock.token,
                       lock.amount, lock.hashlock, lock.refundTimestamp, secret, block, lock.transferVerified));
  }

  function KindText(k: Kind): string
    requires k != KTransfer
  {
    match k
    case KLocked => "Locked"
    case KClaimed => "Claimed"
    case KRefunded => "Refunded"
  }

  predicate IsKind(e: Event, k: Kind) {
    match k
    case KLocked => e.Locked?
    case KClaimed => e.Claimed?
    case KRefunded => e.Refunded?
    case KTransfer => false
  }

  /** The kind filter compares names in lower case, which tells the three kinds apart. */
  lemma {:induction false} EventKind(rpc: Rpc, tx: string, htlc: Option<string>, cid: Option<string>, k: Kind, e: Event)
    requires k != KTransfer && FetchEvent(rpc, tx, htlc, cid, KindText(k)) == Ok(e)
    ensures IsKind(e, k)
    ensures NormalizeAddress(htlc).Some? ==> Some(e.contract) == NormalizeAddress(htlc)
    ensures NormalizeHex(cid).Some? ==> e.cid == NormalizeHex(cid)
    ensures NormalizeAddress(Some(e.contract)) == Some(e.contract)
    ensures e.cid.Some? ==> NormalizeHex(e.cid) == e.cid
  {
    hide Parsed, Fetch, NormalizeHex, NormalizeAddress, Lower;
    EventMeetsExpectations(Fetch(rpc, tx).value, htlc, cid, Some(KindText(k)), e);
    KindsDiffer(e, k);
  }

  lemma KindsDiffer(e: Event, k: Kind)
    requires k != KTransfer && KindName(e) == Lower(KindText(k))
    ensures IsKind(e, k)
  {
    var name := Lower(KindText(k));
    match k {
      case KLocked => assert name[0] == 'l';
      case KClaimed => assert name[0] == 'c';
      case KRefunded => assert name[0] == 'r';
      case KTransfer =>
    }
  }

  /** The settling event is of the lock's escrow contract, not earlier than the lock, and of the lock's contract id. */
  predicate Settles(e: Event, lock: Event, k: Kind) {
    && IsKind(e, k) && e.contract == lock.contract && e.block >= lock.block
    && (e.cid == lock.cid <==> lock.cid.Some? || e.cid.None?)
  }

  lemma {:induction false} SettledOnLock(rpc: Rpc, tx: string, lock: Event, expectedCid: Option<string>, k: Kind)
    requires k != KTransfer && Settled(rpc, tx, lock, expectedCid, KindText(k)).Ok?
    requires NormalizeAddress(Some(lock.contract)) == Some(lock.contract)
    requires lock.cid.Some? ==> NormalizeHex(lock.cid) == lock.cid
    ensures Settles(Settled(rpc, tx, lock, expectedCid, KindText(k)).value, lock, k)
  {
    hide FetchEvent, NormalizeAddress, NormalizeHex, IsKind;
    var expected := if lock.cid.Some? then lock.cid else expectedCid;
    EventKind(rpc, tx, Some(lock.contract), expected, k, Settled(rpc, tx, lock, expectedCid, KindText(k)).value);
  }

  /**
   * Evidence never mixes escrows: terms come from the lock, the status says which transaction was given, and the
   * settling event belongs to the lock's escrow. The contract ids agree exactly when the lock's id could be read.
   */
  lemma {:induction false} EvidenceIsOneEscrow(rpc: Rpc, lockTx: string, expectedHtlc: Option<string>,
      expectedCid: Option<string>, claimTx: Option<string>, refundTx: Option<string>, lock: Event, ev: Evidence)
    requires FetchEvent(rpc, lockTx, expectedHtlc, expectedCid, "Locked") == Ok(lock) && lock.Locked?
    requires Built(rpc, lock, claimTx, refundTx, expectedCid) == Ok(ev)
    ensures NormalizeAddress(expectedHtlc).Some? ==> Some(ev.contract) == NormalizeAddress(expectedHtlc)
    ensures NormalizeHex(expectedCid).Some? ==> ev.cid == NormalizeHex(expectedCid)
    ensures ev.contract == lock.contract && ev.payer == lock.payer && ev.payee == lock.payee
    ensures ev.asset == lock.token && ev.amount == lock.amount && ev.hashlock == lock.hashlock
    ensures ev.refundTimestamp == lock.refundTimestamp && ev.transferVerified == lock.transferVerified
    ensures ev.status == EscrowLocked ==> ev.cid == lock.cid && ev.secret.None? && ev.block == lock.block
    ensures lock.cid.Some? ==> ev.cid == lock.cid
    ensures ev.status == EscrowClaimed <==> Given(claimTx).Some?
    ensures ev.status == EscrowRefunded <==> Given(refundTx).Some?
    ensures ev.status == EscrowClaimed ==>
      var claim := Settled(rpc, Given(claimTx).value, lock, expectedCid, "Claimed");
      && claim.Ok? && Settles(claim.value, lock, KClaimed)
      && ev.secret == claim.value.secret && ev.block == claim.value.block
      && (lock.cid.None? ==> ev.cid == claim.value.cid)
    ensures ev.status == EscrowRefunded ==>
      var refund := Settled(rpc, Given(refundTx).value, lock, expectedCid, "Refunded");
      && refund.Ok? && Settles(refund.value, lock, KRefunded) && ev.secret.None? && ev.block == refund.value.block
      && (lock.cid.None? ==> ev.cid == refund.value.cid)
  {
    hide FetchEvent, NormalizeAddress, NormalizeHex, IsKind, Settles, Settled, Given;
    EventKind(rpc, lockTx, expectedHtlc, expectedCid, KLocked, lock);
    if Given(claimTx).Some? {
      SettledOnLock(rpc, Given(claimTx).value, lock, expectedCid, KClaimed);
    }
    if Given(refundTx).Some? {
      SettledOnLock(rpc, Given(refundTx).value, lock, expectedCid, KRefunded);
    }
  }

  // ---- a lock whose id cannot be read ----

  /** A node that knows two transactions. */
  function Node(lockTx: string, lock: Receipt, other: Receipt): Rpc {
    (tx: string) => Some(Answer(Some(tx), if tx == lockTx then lock else other))
  }

  lemma {:induction false} NodeAnswers(lockTx: string, lock: Receipt, other: Receipt, n: nat)
    requires n < Pow16(64)
    ensures var tx := "0x" + HexText(n, 64);
      Fetch(Node(lockTx, lock, other), tx) == Some(if tx == lockTx then lock else other)
    ensures Given(Some("0x" + HexText(n, 64))) == Some("0x" + HexText(n, 64))
  {
    hide NormalizeHex, HexText, AllLow, HexVal, Pow16;
    HexTextReads(n, 64);
    PrefixedIsNormal(HexText(n, 64));
  }

  lemma {:induction false} TransactionsDiffer()
    ensures 2 < Pow16(64) && HexText(1, 64) != HexText(2, 64)
  {
    hide HexText, HexVal;
    assert 2 < Pow16(1) <= Pow16(64) by {
      PowersOfSixteen(1, 64);
    }
    HexTextReads(1, 64);
    HexTextReads(2, 64);
  }

  lemma {:induction false} PowersOfSixteen(a: nat, b: nat)
    requires a <= b
    ensures Pow16(a) <= Pow16(b)
  {
    if a < b {
      PowersOfSixteen(a, b - 1);
    }
  }

  /** A lock of ether whose id topic is not hex is reported without an id. */
  lemma {:induction false} UnreadableLockParses(f: Lock)
    requires LockFits(f) && "0x" + f.token == ZERO_ADDRESS
    ensures Parsed(Mined(EncodeLockedAs(f, None)), Some("0x" + f.contract), None, Some("Locked"))
      == Ok(LockedEvent(f, None, 7))
  {
    hide ReadLog, NormalizeAddress, NormalizeHex, Lower, EncodeLockedAs, LockFits, Parsed, Denotes, RawNumber;
    NoAddress();
    var rc := Mined(EncodeLockedAs(f, None));
    MinedDenotes(EncodeLockedAs(f, None));
    LockDigits(f);
    PaddedAddress(f.contract);
    KindNames();
    LockedReads(rc, NormalizeAddress(Some("0x" + f.contract)), f, None, 7);
    SoleReadingParses(rc, Expectation(Some("0x" + f.contract), None, Some("Locked")), 0, LockedEvent(f, None, 7));
  }

  lemma {:induction false} AnyClaimParses(contract: string, id: string, secret: string)
    requires Digits(contract, 40) && Digits(id, 64) && Digits(secret, 64)
    ensures Parsed(Mined(EncodeClaimed(contract, id, secret)), Some("0x" + contract), None, Some("Claimed"))
      == Ok(Claimed(Some("0x" + id), "0x" + contract, Some("0x" + secret), 7))
  {
    hide ReadLog, NormalizeAddress, NormalizeHex, Lower, EncodeClaimed, Parsed, Denotes, RawNumber;
    NoAddress();
    var rc := Mined(EncodeClaimed(contract, id, secret));
    MinedDenotes(EncodeClaimed(contract, id, secret));
    var e := Claimed(Some("0x" + id), "0x" + contract, Some("0x" + secret), 7);
    PaddedAddress(contract);
    KindNames();
    ClaimedReads(rc, NormalizeAddress(Some("0x" + contract)), contract, id, secret, 7);
    SoleReadingParses(rc, Expectation(Some("0x" + contract), None, Some("Claimed")), 0, e);
  }

  lemma NothingGiven()
    ensures Given(None).None?
  {
  }

  /** After such a lock the claim of any id on the same escrow contract is taken for the lock's. */
  lemma {:induction false} UnreadableIdIsUnchecked(f: Lock, id: string, secret: string)
    returns (rpc: Rpc, lockTx: string, claimTx: string, lock: Event, ev: Evidence)
    requires LockFits(f) && "0x" + f.token == ZERO_ADDRESS && Digits(id, 64) && Digits(secret, 64)
    ensures FetchEvent(rpc, lockTx, Some("0x" + f.contract), None, "Locked") == Ok(lock) && lock.Locked?
      && lock.cid.None?
    ensures Built(rpc, lock, Some(claimTx), None, None) == Ok(ev)
    ensures ev.status == EscrowClaimed && ev.cid == Some("0x" + id) && ev.amount == f.amount
  {
    hide Parsed, Fetch, HexText, EncodeLockedAs, EncodeClaimed, LockFits, Given, Node, Pow16, NormalizeHex;
    TransactionsDiffer();
    lockTx, claimTx := "0x" + HexText(1, 64), "0x" + HexText(2, 64);
    assert lockTx != claimTx by {
      assert lockTx[2..] == HexText(1, 64) && claimTx[2..] == HexText(2, 64);
    }
    var locked, claimed := Mined(EncodeLockedAs(f, None)), Mined(EncodeClaimed(f.contract, id, secret));
    rpc := Node(lockTx, locked, claimed);
    NodeAnswers(lockTx, locked, claimed, 1);
    NodeAnswers(lockTx, locked, claimed, 2);
    LockDigits(f);
    UnreadableLockParses(f);
    AnyClaimParses(f.contract, id, secret);
    lock := LockedEvent(f, None, 7);
    assert Given(None).None? by {
      NothingGiven();
    }
    assert Settled(rpc, claimTx, lock, None, "Claimed")
      == Ok(Claimed(Some("0x" + id), "0x" + f.contract, Some("0x" + secret), 7));
    ev := Built(rpc, lock, Some(claimTx), None, None).value;
  }
}
