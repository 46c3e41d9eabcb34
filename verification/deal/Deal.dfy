/** Deals: frames, identifiers and the transition functions of the eight-state lifecycle. */
module Deal {
  import opened Options
  import opened Bytes
  import opened Text
  import opened Json
  import opened Keys
  import opened Printer
  import opened Frames
  import opened Hex

  /** A JavaScript value: no object repeats a key. */
  type JsValue = v: Json | Plain(v) witness Null

  datatype Role = Payer | Payee

  datatype LockKind = HashLock | PointLock

  datatype Status = OFFERED | ACCEPTED | LOCKED | VERIFIED | REVEALED | CLAIMED | REFUNDED | CANCELLED

  datatype Offer = Offer(
    from: Text, role: Role, amount: Text, asset: Text, lock: LockKind, rails: seq<Text>,
    claimByMs: SafeInt, refundAfterMs: SafeInt, expiresMs: SafeInt, nonce: Text,
    paymentKey: JsValue, job: JsValue, id: Text)

  datatype AcceptCore = AcceptCore(from: Text, ref: Text, statement: Text, paymentKey: JsValue, nonce: Text)

  datatype Accept = Accept(core: AcceptCore, contract: Text)

  datatype Lock = Lock(from: Text, contract: Text, rail: Text, ref: Text)

  datatype Settlement = Claimed | Refunded | Cancelled

  datatype Receipt = Receipt(from: Text, contract: Text, outcome: Settlement)

  datatype Participant = Participant(did: Text, evmAddress: Option<Text>)

  datatype Terms = Terms(
    contract: Text, lock: LockKind, statement: Text, amount: Text, asset: Text, payer: Text, payee: Text,
    claimByMs: SafeInt, refundAfterMs: SafeInt)

  datatype Stage = OfferSeq | AcceptSeq | LockSeq | RevealSeq | ClaimSeq | RefundSeq | ReceiptSeq

  datatype Record = Record(
    contractId: Text, room: Text, status: Status, payer: Participant, payee: Participant, terms: Option<Terms>,
    offer: Offer, accept: Option<Accept>, rail: Option<Text>, ref: Option<Text>, secretRevealed: bool,
    secretHash: Option<Text>, createdAtMs: int, updatedAtMs: int, receipt: Option<Receipt>,
    sequences: map<Stage, int>, hashes: map<Stage, Text>)

  // ---- identifiers ----

  const DOMAIN: Bytes := [70, 76, 79, 80, 58, 58, 116, 99, 108, 107, 58, 58, 118, 49] // FLOP::tclk::v1

  datatype Tag = OfferTag | ContractTag

  function TagText(tag: Tag): Text {
    match tag
    case OfferTag => [111, 102, 102, 101, 114] // offer
    case ContractTag => [99, 111, 110, 116, 114, 97, 99, 116] // contract
  }

  /** The bytes that domainHash digests; they are all ASCII, so UTF-8 leaves them as they are. */
  function Preimage(tag: Tag, payload: Text): Bytes {
    ToAsciiIsAscii(payload);
    DOMAIN + [124] + TagText(tag) + [124] + AsciiBytes(ToAscii(payload))
  }

  function AsciiBytes(t: Text): (b: Bytes)
    requires forall i :: 0 <= i < |t| ==> t[i] < 0x80
    ensures |b| == |t|
    ensures forall i :: 0 <= i < |t| ==> b[i] == t[i]
  {
    if t == [] then [] else (var first: byte := t[0]; [first] + AsciiBytes(t[1..]))
  }

  function DomainHash(h: HashFn, tag: Tag, payload: Text): Text {
    HexText(h(Preimage(tag, payload)).bytes)
  }

  const OFFER_KEYS := [KType, KFrom, KRole, KAmount, KAsset, KLock, KRails, KClaimByMs, KRefundAfterMs, KExpiresMs,
                       KNonce, KPaymentKey, KJob]

  function RoleText(r: Role): Text {
    if r == Payer then U("payer") else U("payee")
  }

  function LockKindText(k: LockKind): Text {
    if k == HashLock then U("hash") else U("point")
  }

  function TextItems(ts: seq<Text>): Items {
    if ts == [] then NoItems else Item(Str(ts[0]), TextItems(ts[1..]))
  }

  function OfferValues(o: Offer): (vs: seq<Json>)
    ensures |vs| == |OFFER_KEYS|
  {
    [Str(U("offer")), Str(o.from), Str(RoleText(o.role)), Str(o.amount), Str(o.asset), Str(LockKindText(o.lock)),
     Arr(TextItems(o.rails)), Num(o.claimByMs), Num(o.refundAfterMs), Num(o.expiresMs), Str(o.nonce),
     o.paymentKey, o.job]
  }

  /** The offer without its id, as computeOfferId hashes it. */
  function OfferFields(o: Offer): Json {
    Obj(Build(OFFER_KEYS, OfferValues(o)))
  }

  /** The offer with its id, as it travels and as computeContractId hashes it. */
  function OfferJson(o: Offer): Json {
    Obj(Build(OFFER_KEYS + [KId], OfferValues(o) + [Str(o.id)]))
  }

  const CORE_KEYS := [KFrom, KRef, KStatement, KPaymentKey, KNonce]

  function CoreJson(a: AcceptCore): Json {
    Obj(Build(CORE_KEYS, [Str(a.from), Str(a.ref), Str(a.statement), a.paymentKey, Str(a.nonce)]))
  }

  function AgreementJson(o: Offer, a: AcceptCore): Json {
    Obj(Build([KOffer, KAccept], [OfferJson(o), CoreJson(a)]))
  }

  /** computeOfferId; None when canonicalJson throws. */
  function ComputeOfferId(h: HashFn, o: Offer): Option<Text> {
    var json := CanonicalJson(OfferFields(o));
    if json.None? then None else Some(DomainHash(h, OfferTag, json.value))
  }

  /** computeContractId; None when canonicalJson throws. */
  function ComputeContractId(h: HashFn, o: Offer, a: AcceptCore): Option<Text> {
    var json := CanonicalJson(AgreementJson(o, a));
    if json.None? then None else Some(DomainHash(h, ContractTag, json.value))
  }

  function ProjectLockTerms(o: Offer, a: Accept): Terms {
    Terms(a.contract, o.lock, a.core.statement, o.amount, o.asset,
          if o.role == Payer then o.from else a.core.from,
          if o.role == Payee then o.from else a.core.from,
          o.claimByMs, o.refundAfterMs)
  }

  // ---- transitions ----

  datatype Error =
    | RoomRequired | CreatorRequired | DeadlinesOutOfOrder | OfferExpired | AmountNotAnInteger | AmountNotPositive
    | UnsupportedOffer
    | BadTransition(from: Status, to: Status)
    | RefMismatch | SelfAccept | AcceptExpired | BadStatement | ContractMismatch
    | OnlyPayer | RailNotOffered | LockTooLate | VerifiedRefMismatch
    | BadSecret | OnlyPayee | SecretDoesNotOpen | RevealTooLate
    | RefundTooEarly | NotAParticipant
    | NotTerminal | OutcomeMismatch

  /** A call returns with a record, or throws and leaves the record alone. */
  datatype Outcome = Done(record: Record) | Threw(error: Error)

  /** Insert into a strictly sorted list unless it is there: what sorting the set of rails amounts to. */
  function InsertRail(x: Text, rails: seq<Text>): seq<Text> {
    if rails == [] then [x]
    else if rails[0] == x then rails
    else if Less(rails[0], x) then [rails[0]] + InsertRail(x, rails[1..])
    else [x] + rails
  }

  function SortedRails(rails: seq<Text>): seq<Text> {
    if rails == [] then [] else InsertRail(rails[0], SortedRails(rails[1..]))
  }

  ghost predicate Ascending(ts: seq<Text>) {
    forall i, j :: 0 <= i < j < |ts| ==> Before(ts[i], ts[j])
  }

  lemma {:induction false} InsertRailAscends(x: Text, rails: seq<Text>)
    requires Ascending(rails)
    ensures Ascending(InsertRail(x, rails))
    ensures forall t :: t in InsertRail(x, rails) <==> t == x || t in rails
  {
    hide Less, Before;
    if rails != [] && rails[0] != x {
      var rest := rails[1..];
      var r := InsertRail(x, rails);
      forall t <- rest ensures Less(rails[0], t) {
        LessIsBefore(rails[0], t);
      }
      assert Ascending(rest);
      if Less(rails[0], x) {
        InsertRailAscends(x, rest);
      } else {
        LessIsTotal(rails[0], x);
        forall t <- rest ensures Less(x, t) {
          LessIsTransitive(x, rails[0], t);
        }
      }
      forall t <- r[1..] ensures Before(r[0], t) {
        LessIsBefore(r[0], t);
      }
    }
  }

  /** The rails of an offer are those asked for, each once, in lexicographic order. */
  lemma {:induction false} SortedRailsAscend(rails: seq<Text>)
    ensures Ascending(SortedRails(rails))
    ensures forall t :: t in SortedRails(rails) <==> t in rails
  {
    if rails != [] {
      SortedRailsAscend(rails[1..]);
      InsertRailAscends(rails[0], SortedRails(rails[1..]));
    }
  }

  datatype OfferParams = OfferParams(
    room: Text, creator: Participant, role: Role, counterparty: Option<Participant>, amount: Text, asset: Text,
    lock: Option<LockKind>, rails: seq<Text>, claimByMs: SafeInt, refundAfterMs: SafeInt, expiresMs: SafeInt,
    nonce: Text, paymentKey: JsValue, job: JsValue, now: int)

  function DraftOffer(p: OfferParams): Offer {
    Offer(p.creator.did, p.role, p.amount, p.asset, if p.lock.None? then HashLock else p.lock.value,
          if p.rails == [] then [U("evm-htlc")] else SortedRails(p.rails),
          p.claimByMs, p.refundAfterMs, p.expiresMs, p.nonce, p.paymentKey, p.job, [])
  }

  /** DealManager.createOffer. bigInt is the BigInt constructor on strings; None is its SyntaxError. */
  function CreateOffer(h: HashFn, bigInt: Text -> Option<int>, p: OfferParams): Outcome {
    var amount := bigInt(p.amount);
    var draft := DraftOffer(p);
    var id := ComputeOfferId(h, draft);
    var other := if p.counterparty.None? then Participant([], None) else p.counterparty.value;
    if p.room == [] then Threw(RoomRequired)
    else if p.creator.did == [] then Threw(CreatorRequired)
    else if p.claimByMs >= p.refundAfterMs then Threw(DeadlinesOutOfOrder)
    else if p.now >= p.expiresMs then Threw(OfferExpired)
    else if amount.None? then Threw(AmountNotAnInteger)
    else if amount.value <= 0 then Threw(AmountNotPositive)
    else if id.None? then Threw(UnsupportedOffer)
    else
      Done(Record([], p.room, OFFERED, if p.role == Payer then p.creator else other,
                  if p.role == Payee then p.creator else other, None, draft.(id := id.value), None, None, None,
                  false, None, p.now, p.now, None, map[], map[]))
  }

  function NormalizedCore(a: AcceptCore): AcceptCore
    requires ValidHex32(a.statement)
  {
    a.(statement := Lower32(a.statement))
  }

  function ApplyAccept(h: HashFn, r: Record, a: Accept, evm: Option<Text>, now: int): Outcome {
    if r.status == ACCEPTED then
      if Lower(r.contractId) == Lower(a.contract) then Done(r) else Threw(BadTransition(r.status, ACCEPTED))
    else if r.status != OFFERED then Threw(BadTransition(r.status, ACCEPTED))
    else if a.core.ref != r.offer.id then Threw(RefMismatch)
    else if a.core.from == r.offer.from then Threw(SelfAccept)
    else if now >= r.offer.expiresMs then Threw(AcceptExpired)
    else if !ValidHex32(a.core.statement) then Threw(BadStatement)
    else
      var expected := ComputeContractId(h, r.offer, NormalizedCore(a.core));
      if expected.None? then Threw(UnsupportedOffer)
      else if Lower(a.contract) != Lower(expected.value) then Threw(ContractMismatch)
      else
        var terms := ProjectLockTerms(r.offer, a);
        if terms.claimByMs >= terms.refundAfterMs then Threw(DeadlinesOutOfOrder)
        else
          var them := Participant(a.core.from, evm);
          Done(r.(payee := if r.offer.role == Payer then them else r.payee,
                  payer := if r.offer.role == Payer then r.payer else them,
                  contractId := expected.value, accept := Some(a), terms := Some(terms), status := ACCEPTED,
                  updatedAtMs := now))
  }

  function ApplyLock(r: Record, l: Lock, now: int): Outcome {
    if r.status == LOCKED then
      if r.ref == Some(l.ref) && r.rail == Some(l.rail) then Done(r) else Threw(BadTransition(r.status, LOCKED))
    else if r.status != ACCEPTED then Threw(BadTransition(r.status, LOCKED))
    else if Lower(l.contract) != Lower(r.contractId) then Threw(ContractMismatch)
    else if l.from != r.payer.did then Threw(OnlyPayer)
    else if l.rail !in r.offer.rails then Threw(RailNotOffered)
    else if r.terms.Some? && now >= r.terms.value.refundAfterMs then Threw(LockTooLate)
    else Done(r.(rail := Some(l.rail), ref := Some(l.ref), status := LOCKED, updatedAtMs := now))
  }

  /** markVerified; an absent or empty ref is None. */
  function MarkVerified(r: Record, ref: Option<Text>, now: int): Outcome {
    if r.status == VERIFIED then
      if ref.None? || ref == r.ref then Done(r) else Threw(BadTransition(r.status, VERIFIED))
    else if r.status != LOCKED then Threw(BadTransition(r.status, VERIFIED))
    else if ref.Some? && ref != r.ref then Threw(VerifiedRefMismatch)
    else Done(r.(status := VERIFIED, updatedAtMs := now))
  }

  function ApplyReveal(h: HashFn, r: Record, secret: Text, from: Text, now: int): Outcome {
    if !ValidHex32(secret) then Threw(BadSecret)
    else
      var hash := Sha256Hex(h, secret);
      if r.status == REVEALED then
        if r.secretHash == Some(hash) then Done(r) else Threw(BadTransition(r.status, REVEALED))
      else if r.status != VERIFIED && r.status != LOCKED then Threw(BadTransition(r.status, REVEALED))
      else if from != r.payee.did then Threw(OnlyPayee)
      else if r.terms.None? || hash != Lower(r.terms.value.statement) then Threw(SecretDoesNotOpen)
      else if now >= r.terms.value.refundAfterMs then Threw(RevealTooLate)
      else Done(r.(secretRevealed := true, secretHash := Some(hash), status := REVEALED, updatedAtMs := now))
  }

  function ApplyClaim(r: Record, now: int): Outcome {
    if r.status == CLAIMED then Done(r)
    else if r.status != REVEALED then Threw(BadTransition(r.status, CLAIMED))
    else Done(r.(status := CLAIMED, updatedAtMs := now))
  }

  function ApplyRefund(r: Record, from: Text, now: int): Outcome {
    if r.status == REFUNDED then Done(r)
    else if r.status !in {LOCKED, VERIFIED, REVEALED} then Threw(BadTransition(r.status, REFUNDED))
    else if from != r.payer.did then Threw(OnlyPayer)
    else if r.terms.Some? && now < r.terms.value.refundAfterMs then Threw(RefundTooEarly)
    else Done(r.(status := REFUNDED, updatedAtMs := now))
  }

  function ApplyCancel(r: Record, from: Text, now: int): Outcome {
    if r.status == CANCELLED then Done(r)
    else if r.status != OFFERED && r.status != ACCEPTED then Threw(BadTransition(r.status, CANCELLED))
    else if from != r.payer.did && from != r.payee.did && from != r.offer.from then Threw(NotAParticipant)
    else Done(r.(status := CANCELLED, updatedAtMs := now))
  }

  predicate IsTerminal(s: Status) {
    s == CLAIMED || s == REFUNDED || s == CANCELLED
  }

  function SettlementStatus(s: Settlement): Status {
    match s case Claimed => CLAIMED case Refunded => REFUNDED case Cancelled => CANCELLED
  }

  function ApplyReceipt(r: Record, receipt: Receipt, now: int): Outcome {
    if !IsTerminal(r.status) then Threw(NotTerminal)
    else if Lower(receipt.contract) != Lower(r.contractId) then Threw(ContractMismatch)
    else if SettlementStatus(receipt.outcome) != r.status then Threw(OutcomeMismatch)
    else Done(r.(receipt := Some(receipt), updatedAtMs := now))
  }

  function RecordSequence(r: Record, stage: Stage, seqNo: int, hash: Text): Record {
    r.(sequences := r.sequences[stage := seqNo], hashes := if hash == [] then r.hashes else r.hashes[stage := hash])
  }
}
