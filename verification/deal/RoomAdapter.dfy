/** The room adapter: signed records in, deal objects out, two indexes and a set of deliveries already seen. */
module RoomAdapter {
  import opened Options
  import opened Bytes
  import opened Text
  import opened Json
  import opened Keys
  import opened Printer
  import opened Parser
  import opened RoundTrip
  import opened Frames
  import opened Hex
  import opened Deal
  import opened DealManagers
  import opened DealRuns

  // ---- typed frames ----

  datatype Frame =
    | FOffer(o: Offer)
    | FAccept(a: Accept)
    | FLock(l: Lock)
    | FReveal(from: Text, contract: Text, secret: Text)
    | FRefund(from: Text, contract: Text)
    | FCancel(from: Text, contract: Text)
    | FReceipt(receipt: Receipt)

  function Sender(f: Frame): Text {
    match f
    case FOffer(o) => o.from
    case FAccept(a) => a.core.from
    case FLock(l) => l.from
    case FReveal(from, _, _) => from
    case FRefund(from, _) => from
    case FCancel(from, _) => from
    case FReceipt(receipt) => receipt.from
  }

  function ContractOf(f: Frame): Text
    requires !f.FOffer?
  {
    match f
    case FAccept(a) => a.contract
    case FLock(l) => l.contract
    case FReveal(_, contract, _) => contract
    case FRefund(_, contract) => contract
    case FCancel(_, contract) => contract
    case FReceipt(receipt) => receipt.contract
  }

  /** No object of a parsed text repeats a key. */
  lemma {:induction false} PutDistinct(m: Members, k: Text, v: Json)
    requires DistinctKeys(m) && PlainMembers(m) && Plain(v)
    ensures DistinctKeys(Put(m, k, v)) && PlainMembers(Put(m, k, v))
    ensures forall q: Text :: HasKey(Put(m, k, v), q) <==> q == k || HasKey(m, q)
  {
    if m.Member? {
      PutDistinct(m.rest, k, v);
    }
  }

  lemma {:induction false} ParsedIsPlain(t: Text)
    ensures ParseValue(t).Some? ==> Plain(ParseValue(t).value.0)
    decreases |t|, 0
  {
    hide ParseItems, ParseMembers, ParseChars, ParseNumber, ParseWord;
    var s := SkipBlanks(t);
    if s != [] {
      ParsedItemsPlain(s[1..]);
      ParsedMembersPlain(s[1..], NoMembers);
      ScalarsArePlain(s);
    }
  }

  lemma ScalarsArePlain(s: Text)
    ensures ParseNumber(s).Some? ==> Plain(ParseNumber(s).value.0)
    ensures ParseWord(s, TRUE, Bool(true)).Some? ==> Plain(ParseWord(s, TRUE, Bool(true)).value.0)
    ensures ParseWord(s, FALSE, Bool(false)).Some? ==> Plain(ParseWord(s, FALSE, Bool(false)).value.0)
    ensures ParseWord(s, NULL, Null).Some? ==> Plain(ParseWord(s, NULL, Null).value.0)
  {
    hide ParseNat;
  }

  lemma {:induction false} ParsedItemsPlain(t: Text)
    ensures ParseItems(t).Some? ==> PlainItems(ParseItems(t).value.0)
    decreases |t|, 1
  {
    hide ParseValue;
    var v := ParseValue(t);
    if v.Some? {
      ParsedIsPlain(t);
      var s := SkipBlanks(v.value.1);
      if s != [] {
        ParsedItemsPlain(s[1..]);
      }
    }
  }

  lemma {:induction false} ParsedMembersPlain(t: Text, sofar: Members)
    requires DistinctKeys(sofar) && PlainMembers(sofar)
    ensures var r := ParseMembers(t, sofar);
      r.Some? ==> DistinctKeys(r.value.0) && PlainMembers(r.value.0)
    decreases |t|, 1
  {
    hide ParseValue, ParseChars, Put;
    var s := SkipBlanks(t);
    if s != [] && s[0] == 34 {
      var k := ParseChars(s[1..]);
      if k.Some? {
        var colon := SkipBlanks(k.value.1);
        if colon != [] && colon[0] == 58 {
          var v := ParseValue(colon[1..]);
          if v.Some? {
            ParsedIsPlain(colon[1..]);
            PutDistinct(sofar, k.value.0, v.value.0);
            var end := SkipBlanks(v.value.1);
            if end != [] && end[0] == 44 {
              ParsedMembersPlain(end[1..], Put(sofar, k.value.0, v.value.0));
            }
          }
        }
      }
    }
  }

  lemma {:induction false} DecodedIsPlain(text: Text)
    ensures DecodeFrame(text).Good? ==> PlainMembers(DecodeFrame(text).value)
  {
    hide ParseValue, CheckFrame;
    if IsTclkLine(text) {
      ParsedIsPlain(text[|PREFIX|..]);
    }
  }

  function TextAt(m: Members, k: Key): Text {
    match Get(m, Name(k)) case Str(s) => s case _ => []
  }

  function NumberAt(m: Members, k: Key): SafeInt {
    match Get(m, Name(k)) case Num(n) => n case _ => 0
  }

  function ItemTexts(items: Items): Option<seq<Text>> {
    if items.NoItems? then Some([])
    else if !items.head.Str? then None
    else
      var more := ItemTexts(items.tail);
      if more.None? then None else Some([items.head.s] + more.value)
  }

  /** The members of a validated frame, at their types. A rails list with anything but texts in it is not modelled. */
  function ReadMembers(m: Members): (f: Option<Frame>)
    requires PlainMembers(m)
  {
    var kind, from, contract := TextAt(m, KType), TextAt(m, KFrom), TextAt(m, KContract);
    if kind == U("offer") then
      var rails := Get(m, Name(KRails));
      var texts := if rails.Arr? then ItemTexts(rails.items) else None;
      if texts.None? then None
      else
        Some(FOffer(Offer(from, if TextAt(m, KRole) == U("payer") then Payer else Payee, TextAt(m, KAmount),
                          TextAt(m, KAsset), if TextAt(m, KLock) == U("hash") then HashLock else PointLock,
                          texts.value, NumberAt(m, KClaimByMs), NumberAt(m, KRefundAfterMs), NumberAt(m, KExpiresMs),
                          TextAt(m, KNonce), Get(m, Name(KPaymentKey)), Get(m, Name(KJob)), TextAt(m, KId))))
    else if kind == U("accept") then
      Some(FAccept(Accept(AcceptCore(from, TextAt(m, KRef), TextAt(m, KStatement), Get(m, Name(KPaymentKey)),
                                     TextAt(m, KNonce)), contract)))
    else if kind == U("lock") then Some(FLock(Lock(from, contract, TextAt(m, KRail), TextAt(m, KRef))))
    else if kind == U("reveal") then Some(FReveal(from, contract, TextAt(m, KSecret)))
    else if kind == U("refund") then Some(FRefund(from, contract))
    else if kind == U("cancel") then Some(FCancel(from, contract))
    else
      var outcome := TextAt(m, KOutcome);
      Some(FReceipt(Receipt(from, contract,
        if outcome == U("claimed") then Claimed else if outcome == U("refunded") then Refunded else Cancelled)))
  }

  function ReadFrame(text: Text): FrameResult<Frame> {
    var decoded := DecodeFrame(text);
    if decoded.Bad? then Bad(decoded.error)
    else
      DecodedIsPlain(text);
      var f := ReadMembers(decoded.value);
      if f.None? then Bad(UnsupportedValue) else Good(f.value)
  }

  // ---- records ----

  datatype RoomRecord = RoomRecord(room: Text, seqNo: SafeInt, ts: Text, from: Text, nonce: JsValue, sig: Text,
      text: Text)

  /** What the adapter takes from outside: SHA-256, BigInt, Date.parse and the Ed25519 check on a record. */
  datatype Env = Env(
    h: HashFn, bigInt: Text -> Option<int>, parseDate: Text -> Option<int>, verify: RoomRecord -> bool)

  function DeliveryKey(rec: RoomRecord): Text {
    rec.room + [58] + Number(rec.seqNo) + [58] + rec.sig
  }

  /** Date.parse(ts) || Date.now(): an unparsable date and the epoch itself both fall back to the wall clock. */
  function Moment(env: Env, rec: RoomRecord, wall: int): int {
    var parsed := env.parseDate(rec.ts);
    if parsed.None? || parsed.value == 0 then wall else parsed.value
  }

  const RECORD_KEYS := [KRoom, KSeq, KTs, KFrom, KNonce, KSig, KText]

  function RecordValues(rec: RoomRecord): (vs: seq<Json>)
    ensures |vs| == |RECORD_KEYS|
  {
    [Str(rec.room), Num(rec.seqNo), Str(rec.ts), Str(rec.from), rec.nonce, Str(rec.sig), Str(rec.text)]
  }

  function RecordJson(rec: RoomRecord): Json {
    Obj(Build(RECORD_KEYS, RecordValues(rec)))
  }

  /** The evidence hash of a record; a value canonicalJson rejects cannot arrive in a record. */
  function RecordHash(h: HashFn, rec: RoomRecord): Text {
    var json := CanonicalJson(RecordJson(rec));
    if json.None? then []
    else
      ToAsciiIsAscii(json.value);
      HexText(h(AsciiBytes(ToAscii(json.value))).bytes)
  }

  function OfferParamsOf(room: Text, o: Offer, now: int): OfferParams {
    OfferParams(room, Participant(o.from, None), o.role, None, o.amount, o.asset, Some(o.lock), o.rails, o.claimByMs,
                o.refundAfterMs, o.expiresMs, o.nonce, o.paymentKey, o.job, now)
  }

  /** What a frame other than an offer asks of the deal it is routed to. */
  function FrameEvent(f: Frame, evm: Option<Text>, now: int, wall: int): Event
    requires !f.FOffer?
  {
    match f
    case FAccept(a) => EAccept(a, evm, now)
    case FLock(l) => ELock(l, now)
    case FReveal(from, _, secret) => EReveal(secret, from, now)
    case FRefund(from, _) => ERefund(from, now)
    case FCancel(from, _) => ECancel(from, now)
    case FReceipt(receipt) => EReceipt(receipt, wall)
  }

  function FrameStage(f: Frame): Option<Stage>
    requires !f.FOffer?
  {
    match f
    case FAccept(_) => Some(AcceptSeq)
    case FLock(_) => Some(LockSeq)
    case FReveal(_, _, _) => Some(RevealSeq)
    case FRefund(_, _) => Some(RefundSeq)
    case FCancel(_, _) => None
    case FReceipt(_) => Some(ReceiptSeq)
  }

  /** The record of the routed deal after a successful frame: the event, then its ledger sequence. */
  function After(h: HashFn, r: Record, e: Event, stage: Option<Stage>, seqNo: int, hash: Text): Record {
    var s := Next(h, r, e);
    if stage.None? then s else RecordSequence(s, stage.value, seqNo, hash)
  }

  // ---- what being filed means ----

  /** Filed under an offer key: the deal's own id, recomputed from its offer. */
  predicate FiledByOffer(h: HashFn, room: Text, k: Text, r: Record) {
    Inv(h, r) && r.room == room && r.offer.id == k && ComputeOfferId(h, r.offer) == Some(k)
  }

  /** Filed under a contract key: accepted at some time, and the key is the recomputed contract id. */
  predicate FiledByContract(h: HashFn, room: Text, c: Text, r: Record) {
    && Inv(h, r) && r.room == room && r.status != OFFERED && Agreed(h, r)
    && r.contractId == c
    && ComputeContractId(h, r.offer, NormalizedCore(r.accept.value.core)) == Some(c)
  }

  lemma {:induction false} AgreedStands(h: HashFn, r: Record, s: Record)
    requires Inv(h, r) && Agreed(h, r) && Advances(r, s) && Inv(h, s)
    ensures s.status != OFFERED || r.status == OFFERED
    ensures Agreed(h, s) && r.accept.Some? && s.accept == r.accept && s.contractId == r.contractId
  {
    hide ComputeOfferId, ComputeContractId, Lower, ValidHex32, NormalizedCore, ProjectLockTerms;
  }

  lemma FilingStands(h: HashFn, room: Text, r: Record, s: Record)
    requires Advances(r, s) && Inv(h, s)
    ensures forall k :: FiledByOffer(h, room, k, r) ==> FiledByOffer(h, room, k, s)
    ensures forall c :: FiledByContract(h, room, c, r) ==> FiledByContract(h, room, c, s)
  {
    hide Inv, Agreed, ComputeOfferId, ComputeContractId, NormalizedCore;
    if Inv(h, r) && Agreed(h, r) {
      AgreedStands(h, r, s);
    }
  }

  lemma {:induction false} AfterAdvances(h: HashFn, r: Record, e: Event, stage: Option<Stage>, seqNo: int, hash: Text)
    requires Inv(h, r)
    ensures Inv(h, After(h, r, e, stage, seqNo, hash)) && Advances(r, After(h, r, e, stage, seqNo, hash))
  {
    hide Inv, Next, Advances;
    StepKeepsInv(h, r, e);
    StepAdvances(h, r, e);
    if stage.Some? {
      var ledger := ELedger(stage.value, seqNo, hash);
      var s := Next(h, r, e);
      StepKeepsInv(h, s, ledger);
      StepAdvances(h, s, ledger);
      LedgerNext(h, s, stage.value, seqNo, hash);
      AdvancesIsTransitive(r, s, Next(h, s, ledger));
    }
  }

  lemma LedgerNext(h: HashFn, r: Record, stage: Stage, seqNo: int, hash: Text)
    ensures Next(h, r, ELedger(stage, seqNo, hash)) == RecordSequence(r, stage, seqNo, hash)
  {
  }

  /** A successful accept leaves the deal ready to be filed under its lower-cased contract id. */
  lemma {:induction false} AcceptFiles(h: HashFn, room: Text, k: Text, r: Record, a: Accept, evm: Option<Text>,
      now: int, seqNo: int, hash: Text)
    requires FiledByOffer(h, room, k, r) && ApplyAccept(h, r, a, evm, now).Done?
    ensures var s := After(h, r, EAccept(a, evm, now), Some(AcceptSeq), seqNo, hash);
      FiledByContract(h, room, Lower(s.contractId), s)
  {
    hide ComputeOfferId, Lower, ValidHex32, ComputeContractId, NormalizedCore, ProjectLockTerms;
    AfterAdvances(h, r, EAccept(a, evm, now), Some(AcceptSeq), seqNo, hash);
    var s := After(h, r, EAccept(a, evm, now), Some(AcceptSeq), seqNo, hash);
    assert s.status == ACCEPTED;
    ContractIdIsLower(h, s.offer, NormalizedCore(s.accept.value.core));
  }

  lemma ContractIdIsLower(h: HashFn, o: Offer, a: AcceptCore)
    ensures ComputeContractId(h, o, a).Some? ==>
      Lower(ComputeContractId(h, o, a).value) == ComputeContractId(h, o, a).value
  {
    hide AgreementJson, CanonicalJson, Preimage, HexText, Lower;
    var json := CanonicalJson(AgreementJson(o, a));
    if json.Some? {
      DigestText(h(Preimage(ContractTag, json.value)));
    }
  }

  // ---- the adapter ----

  datatype AdapterError =
    | InvalidRoom | InvalidSignature | BadFrame(frameError: FrameError) | SenderMismatch | DealNotFound
      | OfferIdMismatch
    | DealThrew(thrown: Error)

  datatype IngestResult = Ingested(frame: Frame) | Ignored | Duplicate | Failed(error: AdapterError)

  class RoomDealAdapter {
    const room: Text
    var dealsByOffer: map<Text, DealManager>
    var dealsByContract: map<Text, DealManager>
    var seen: set<Text>

    constructor (room: Text)
      ensures this.room == room && dealsByOffer == map[] && dealsByContract == map[] && seen == {}
    {
      this.room := room;
      dealsByOffer := map[];
      dealsByContract := map[];
      seen := {};
    }

    /** getAllDeals. */
    function Deals(): set<DealManager>
      reads this`dealsByOffer, this`dealsByContract
    {
      dealsByOffer.Values + dealsByContract.Values
    }

    /** The invariant of the two indexes. */
    ghost predicate Valid(h: HashFn)
      reads this`dealsByOffer, this`dealsByContract, Deals()
    {
      && (forall k <- dealsByOffer.Keys :: FiledByOffer(h, room, k, dealsByOffer[k].record))
      && (forall c <- dealsByContract.Keys :: FiledByContract(h, room, c, dealsByContract[c].record))
    }

    /** The deal a frame is routed to. */
    function Target(f: Frame): DealManager?
      reads this`dealsByOffer, this`dealsByContract
    {
      match f
      case FOffer(_) => null
      case FAccept(a) => if a.core.ref in dealsByOffer then dealsByOffer[a.core.ref] else null
      case FLock(l) => ByContract(l.contract)
      case FReveal(_, contract, _) => ByContract(contract)
      case FRefund(_, contract) => ByContract(contract)
      case FReceipt(receipt) => ByContract(receipt.contract)
      case FCancel(_, contract) =>
        if ByContract(contract) != null then ByContract(contract)
        else if contract in dealsByOffer then dealsByOffer[contract] else null
    }

    function ByContract(contract: Text): DealManager?
      reads this`dealsByOffer, this`dealsByContract
    {
      if Lower(contract) in dealsByContract then dealsByContract[Lower(contract)] else null
    }

    lemma {:induction false} TargetIsFiled(h: HashFn, f: Frame)
      requires Valid(h) && Target(f) != null
      ensures Target(f) in Deals() && Inv(h, Target(f).record)
      ensures f.FAccept? ==> FiledByOffer(h, room, f.a.core.ref, Target(f).record)
    {
      hide FiledByOffer, FiledByContract, Inv, Lower;
      match f {
        case FOffer(_) =>
        case FAccept(a) => OfferInv(h, a.core.ref);
        case FCancel(_, contract) =>
          if ByContract(contract) != null {
            ContractInv(h, Lower(contract));
          } else {
            OfferInv(h, contract);
          }
        case FLock(l) => ContractInv(h, Lower(l.contract));
        case FReveal(_, contract, _) => ContractInv(h, Lower(contract));
        case FRefund(_, contract) => ContractInv(h, Lower(contract));
        case FReceipt(receipt) => ContractInv(h, Lower(receipt.contract));
      }
    }

    /** A frame about a filed deal is routed to that deal: by offer id for an accept, by contract id for the others. */
    lemma {:induction false} FramesReachTheirDeal(h: HashFn, f: Frame, k: Text)
      requires Valid(h)
      ensures k in dealsByOffer ==>
        (f.FAccept? && f.a.core.ref == dealsByOffer[k].record.offer.id ==> Target(f) == dealsByOffer[k])
      ensures k in dealsByOffer && f.FCancel? && f.contract == dealsByOffer[k].record.offer.id ==>
        (Lower(f.contract) !in dealsByContract ==> Target(f) == dealsByOffer[k])
      ensures k in dealsByContract && !f.FOffer? && !f.FAccept? ==>
        (Lower(ContractOf(f)) == dealsByContract[k].record.contractId ==> Target(f) == dealsByContract[k])
    {
      hide Inv, Agreed, ComputeOfferId, ComputeContractId, NormalizedCore, Lower;
    }

    lemma {:induction false} OfferInv(h: HashFn, k: Text)
      requires Valid(h) && k in dealsByOffer
      ensures FiledByOffer(h, room, k, dealsByOffer[k].record) && Inv(h, dealsByOffer[k].record)
      ensures dealsByOffer[k] in Deals()
    {
      hide Inv, FiledByContract;
    }

    lemma {:induction false} ContractInv(h: HashFn, c: Text)
      requires Valid(h) && c in dealsByContract
      ensures Inv(h, dealsByContract[c].record) && dealsByContract[c] in Deals()
    {
      hide Inv, FiledByOffer;
    }

    /** Applies an event to a deal object: one call of the matching method. */
    method Dispatch(env: Env, deal: DealManager, f: Frame, evm: Option<Text>, now: int, wall: int)
      returns (error: Option<Error>)
      requires !f.FOffer?
      modifies deal
      ensures error == Thrown(Apply(env.h, old(deal.record), FrameEvent(f, evm, now, wall)))
      ensures deal.record == Next(env.h, old(deal.record), FrameEvent(f, evm, now, wall))
    {
      hide ApplyAccept, ApplyLock, ApplyReveal, ApplyRefund, ApplyCancel, ApplyReceipt;
      match f
      case FAccept(a) => error := deal.Accept(env.h, a, evm, now);
      case FLock(l) => error := deal.Lock(l, now);
      case FReveal(from, _, secret) => error := deal.Reveal(env.h, secret, from, now);
      case FRefund(from, _) => error := deal.Refund(from, now);
      case FCancel(from, _) => error := deal.Cancel(from, now);
      case FReceipt(receipt) => error := deal.TakeReceipt(receipt, wall);
    }

    /** The offer case: a new deal object, filed if its recomputed id is the one on the wire. */
    method FileOffer(env: Env, o: Offer, now: int, seqNo: int, hash: Text) returns (error: Option<AdapterError>)
      requires Valid(env.h)
      modifies this`dealsByOffer
      ensures Valid(env.h) && fresh(Deals() - old(Deals()))
      ensures var made := CreateOffer(env.h, env.bigInt, OfferParamsOf(room, o, now));
        && (error.None? <==> made.Done? && made.record.offer.id == o.id)
        && (error.Some? ==> dealsByOffer == old(dealsByOffer))
        && (error.Some? ==> error.value == if made.Threw? then DealThrew(made.error) else OfferIdMismatch)
        && (error.None? ==>
              && o.id in dealsByOffer && fresh(dealsByOffer[o.id])
              && dealsByOffer == old(dealsByOffer)[o.id := dealsByOffer[o.id]]
              && dealsByOffer[o.id].record == RecordSequence(made.record, OfferSeq, seqNo, hash))
    {
      hide CreateOffer, Inv, FiledByContract, FiledByOffer, OfferParamsOf, RecordSequence;
      var p := OfferParamsOf(room, o, now);
      var deal, thrown := DealManager.Create(env.h, env.bigInt, p);
      if thrown.Some? {
        return Some(DealThrew(thrown.value));
      }
      if deal.record.offer.id != o.id {
        return Some(OfferIdMismatch);
      }
      NewOfferIsFiled(env, room, o, now, seqNo, hash);
      deal.RecordLedgerSequence(OfferSeq, seqNo, hash);
      dealsByOffer := dealsByOffer[o.id := deal];
      return None;
    }

    /** Every other case: apply, note the ledger sequence, and file an accepted deal under its contract id. */
    method ApplyTo(env: Env, deal: DealManager, f: Frame, evm: Option<Text>, now: int, wall: int, seqNo: int,
        hash: Text)
      returns (error: Option<Error>)
      requires Valid(env.h) && !f.FOffer? && deal in Deals() && Inv(env.h, deal.record)
      requires f.FAccept? ==> FiledByOffer(env.h, room, f.a.core.ref, deal.record)
      modifies this`dealsByContract, deal
      ensures Valid(env.h) && Deals() <= old(Deals())
      ensures error == Thrown(Apply(env.h, old(deal.record), FrameEvent(f, evm, now, wall)))
      ensures error.Some? ==> deal.record == old(deal.record) && dealsByContract == old(dealsByContract)
      ensures error.None? ==>
        && deal.record == After(env.h, old(deal.record), FrameEvent(f, evm, now, wall), FrameStage(f), seqNo, hash)
        && dealsByContract ==
             if f.FAccept? then old(dealsByContract)[Lower(deal.record.contractId) := deal] else old(dealsByContract)
      ensures Advances(old(deal.record), deal.record)
    {
      hide Apply, Inv, FiledByOffer, FiledByContract, Advances, Next, Lower;
      ghost var before := deal.record;
      ghost var event := FrameEvent(f, evm, now, wall);
      error := Dispatch(env, deal, f, evm, now, wall);
      if error.Some? {
        ThrownKeeps(env.h, before, event);
        AdvancesIsReflexive(before);
        return;
      }
      if FrameStage(f).Some? {
        deal.RecordLedgerSequence(FrameStage(f).value, seqNo, hash);
      }
      AfterAdvances(env.h, before, event, FrameStage(f), seqNo, hash);
      FilingStands(env.h, room, before, deal.record);
      if f.FAccept? {
        AcceptDone(env.h, before, f.a, evm, now);
        AcceptFiles(env.h, room, f.a.core.ref, before, f.a, evm, now, seqNo, hash);
        dealsByContract := dealsByContract[Lower(deal.record.contractId) := deal];
      }
    }

    /** What ingestRecord will return on the present state, exception by exception. */
    function Verdict(env: Env, rec: RoomRecord, evm: Option<Text>, wall: int): IngestResult
      reads this, Deals()
    {
      if rec.room != room then Failed(InvalidRoom)
      else if DeliveryKey(rec) in seen then Duplicate
      else if !env.verify(rec) then Failed(InvalidSignature)
      else if !IsTclkLine(rec.text) then Ignored
      else
        var frame := ReadFrame(rec.text);
        if frame.Bad? then Failed(BadFrame(frame.error))
        else if Sender(frame.value) != rec.from then Failed(SenderMismatch)
        else FrameVerdict(env, frame.value, evm, Moment(env, rec, wall), wall)
    }

    function FrameVerdict(env: Env, f: Frame, evm: Option<Text>, now: int, wall: int): IngestResult
      reads this`dealsByOffer, this`dealsByContract, Deals()
    {
      match f
      case FOffer(o) =>
        var made := CreateOffer(env.h, env.bigInt, OfferParamsOf(room, o, now));
        if made.Threw? then Failed(DealThrew(made.error))
        else if made.record.offer.id != o.id then Failed(OfferIdMismatch)
        else Ingested(f)
      case _ =>
        var target := Target(f);
        if target == null || target !in Deals() then Failed(DealNotFound)
        else
          var thrown := Thrown(Apply(env.h, target.record, FrameEvent(f, evm, now, wall)));
          if thrown.Some? then Failed(DealThrew(thrown.value)) else Ingested(f)
    }

    /** The deals of an earlier moment are as they were then, except possibly one. */
    twostate predicate Kept(deals: set<DealManager>, but: DealManager?)
      reads deals
    {
      forall d <- deals :: d != but ==> d.record == old(d.record)
    }

    /**
     * The effect of an accepted frame: an offer files one new deal and touches no other; any other frame changes the
     * one deal it is routed to, and an accept files that deal under its contract id.
     */
    twostate predicate Took(env: Env, f: Frame, evm: Option<Text>, now: int, wall: int, seqNo: int, hash: Text,
                            target: DealManager?)
      reads this`dealsByOffer, this`dealsByContract, target, dealsByOffer.Values
    {
      var filed := old(dealsByContract);
      match f
      case FOffer(o) =>
        && dealsByContract == filed
        && o.id in dealsByOffer && dealsByOffer == old(dealsByOffer)[o.id := dealsByOffer[o.id]]
        && fresh(dealsByOffer[o.id])
        && CreateOffer(env.h, env.bigInt, OfferParamsOf(room, o, now)).Done?
        && dealsByOffer[o.id].record ==
             RecordSequence(CreateOffer(env.h, env.bigInt, OfferParamsOf(room, o, now)).record, OfferSeq, seqNo, hash)
      case _ =>
        && target != null
        && dealsByOffer == old(dealsByOffer)
        && target.record == After(env.h, old(target.record), FrameEvent(f, evm, now, wall), FrameStage(f), seqNo, hash)
        && dealsByContract == if f.FAccept? then filed[Lower(target.record.contractId) := target] else filed
    }

    /** No deal of a set fell back: the change of each is a run of its own. */
    twostate predicate AllAdvance(deals: set<DealManager>)
      reads deals
    {
      forall d <- deals :: Advances(old(d.record), d.record)
    }

    twostate lemma KeptAdvance(target: DealManager?)
      requires Kept(old(Deals()), target)
      requires target != null ==> Advances(old(target.record), target.record)
      ensures AllAdvance(old(Deals()))
    {
      hide Advances;
      forall d <- old(Deals())
        ensures Advances(old(d.record), d.record)
      {
        AdvancesIsReflexive(d.record);
      }
    }

    twostate lemma NothingChanged()
      requires forall d <- old(Deals()) :: d.record == old(d.record)
      ensures Kept(old(Deals()), null)
    {
    }

    /** The switch of ingestRecord. */
    method IngestFrame(env: Env, f: Frame, evm: Option<Text>, now: int, wall: int, seqNo: int, hash: Text)
      returns (r: IngestResult)
      requires Valid(env.h)
      modifies this`dealsByOffer, this`dealsByContract, Deals()
      ensures Valid(env.h) && fresh(Deals() - old(Deals()))
      ensures r == old(FrameVerdict(env, f, evm, now, wall))
      ensures r.Failed? || r == Ingested(f)
      ensures r.Failed? ==> dealsByOffer == old(dealsByOffer) && dealsByContract == old(dealsByContract)
      ensures Kept(old(Deals()), if r.Failed? then null else old(Target(f)))
      ensures r.Ingested? ==> Took(env, f, evm, now, wall, seqNo, hash, old(Target(f)))
      ensures old(Target(f)) != null ==> Advances(old(Target(f).record), old(Target(f)).record)
    {
      hide CreateOffer, Apply, FiledByOffer, FiledByContract, Inv, Next, Lower, After, Advances;
      if f.FOffer? {
        var error := FileOffer(env, f.o, now, seqNo, hash);
        return if error.Some? then Failed(error.value) else Ingested(f);
      }
      var deal := Target(f);
      if deal == null {
        return Failed(DealNotFound);
      }
      TargetIsFiled(env.h, f);
      var error := ApplyTo(env, deal, f, evm, now, wall, seqNo, hash);
      return if error.Some? then Failed(DealThrew(error.value)) else Ingested(f);
    }

    /**
     * ingestRecord. The result is exactly the verdict on the state before; an exception or a redelivery changes
     * nothing at all.
     */
    method IngestRecord(env: Env, rec: RoomRecord, evm: Option<Text>, wall: int) returns (r: IngestResult)
      requires Valid(env.h)
      modifies this, Deals()
      ensures Valid(env.h) && fresh(Deals() - old(Deals()))
      ensures r == old(Verdict(env, rec, evm, wall))
      ensures seen == if r.Ignored? || r.Ingested? then old(seen) + {DeliveryKey(rec)} else old(seen)
      ensures !r.Ingested? ==> dealsByOffer == old(dealsByOffer) && dealsByContract == old(dealsByContract)
      ensures Kept(old(Deals()), if r.Ingested? then old(Target(r.frame)) else null)
      ensures r.Ingested? ==> Took(env, r.frame, evm, Moment(env, rec, wall), wall, rec.seqNo, RecordHash(env.h, rec),
                                   old(Target(r.frame)))
      ensures AllAdvance(old(Deals()))
    {
      hide ReadFrame, RecordHash, Moment, FrameVerdict, Valid, Took, Kept, DeliveryKey, AllAdvance, Advances, Target;
      NothingChanged();
      KeptAdvance(null);
      if rec.room != room {
        return Failed(InvalidRoom);
      }
      var deliveryKey := DeliveryKey(rec);
      if deliveryKey in seen {
        return Duplicate;
      }
      if !env.verify(rec) {
        return Failed(InvalidSignature);
      }
      if !IsTclkLine(rec.text) {
        seen := seen + {deliveryKey};
        return Ignored;
      }
      var read := ReadFrame(rec.text);
      if read.Bad? {
        return Failed(BadFrame(read.error));
      }
      var frame := read.value;
      if Sender(frame) != rec.from {
        return Failed(SenderMismatch);
      }
      r := IngestFrame(env, frame, evm, Moment(env, rec, wall), wall, rec.seqNo, RecordHash(env.h, rec));
      KeptAdvance(if r.Failed? then null else old(Target(frame)));
      if r.Ingested? {
        seen := seen + {deliveryKey};
      }
    }

    lemma {:induction false} VerdictFits(env: Env, rec: RoomRecord, evm: Option<Text>, wall: int)
      ensures Fits(env, room, rec, Verdict(env, rec, evm, wall))
      ensures Verdict(env, rec, evm, wall).Duplicate? <==> rec.room == room && DeliveryKey(rec) in seen
    {
      hide ReadFrame, Moment, DeliveryKey, IsTclkLine;
    }

    /** One record of the transcript, with the deals' records since some earlier moment. */
    method SyncOne(env: Env, rec: RoomRecord, wall: int, ghost since: map<DealManager, Record>)
        returns (r: IngestResult)
      requires Valid(env.h) && AdvancedSince(since)
      modifies this, Deals()
      ensures Valid(env.h) && fresh(Deals() - old(Deals())) && AdvancedSince(since)
      ensures Fits(env, room, rec, r) && (r.Duplicate? <==> rec.room == room && DeliveryKey(rec) in old(seen))
      ensures seen == old(seen) + if r.Ingested? || r.Ignored? then {DeliveryKey(rec)} else {}
    {
      hide Valid, Verdict, Kept, Took, Moment, RecordHash, DeliveryKey, Fits, Advances;
      VerdictFits(env, rec, None, wall);
      ghost var prior := map d <- since.Keys :: d.record;
      r := IngestRecord(env, rec, None, wall);
      forall d <- since.Keys
        ensures Advances(since[d], d.record)
      {
        AdvancesIsReflexive(d.record);
        AdvancesIsTransitive(since[d], prior[d], d.record);
      }
    }

    /** Every deal has only advanced since its record was taken down. */
    ghost predicate AdvancedSince(since: map<DealManager, Record>)
      reads since.Keys
    {
      forall d <- since.Keys :: Advances(since[d], d.record)
    }

    /**
     * sync: the whole transcript in order; the first exception ends it with everything before it applied. Every result
     * fits its record, a delivery is a duplicate exactly when it was taken before, and no deal falls back.
     */
    method Sync(env: Env, records: seq<RoomRecord>, wall: int) returns (results: seq<IngestResult>)
      requires Valid(env.h)
      modifies this, Deals()
      ensures Valid(env.h) && fresh(Deals() - old(Deals()))
      ensures |results| <= |records|
      ensures forall i :: 0 <= i < |results| ==> (results[i].Failed? ==> i == |results| - 1)
      ensures |results| < |records| ==> results != [] && results[|results| - 1].Failed?
      ensures Answers(env, room, records, results, old(seen))
      ensures seen == old(seen) + Taken(records, results)
      ensures AllAdvance(old(Deals()))
    {
      hide Valid, Verdict, DeliveryKey, Fits, Answers, Advances, Taken;
      results := [];
      ghost var since := map d <- Deals() :: d.record;
      forall d <- Deals()
        ensures Advances(since[d], d.record)
      {
        AdvancesIsReflexive(d.record);
      }
      NothingTaken(env, room, records, seen);
      for i := 0 to |records|
        invariant Valid(env.h) && AdvancedSince(since)
        invariant |results| == i
        invariant forall j :: 0 <= j < i ==> !results[j].Failed?
        invariant Answers(env, room, records, results, old(seen))
        invariant seen == old(seen) + Taken(records, results)
        invariant fresh(Deals() - old(Deals()))
      {
        ghost var before := results;
        var r := SyncOne(env, records[i], wall, since);
        results := results + [r];
        OneMoreTaken(env, room, records, before, r, old(seen));
        if r.Failed? {
          return;
        }
      }
    }
  }

  /** What a result says of its record, whatever the deals. */
  predicate Fits(env: Env, room: Text, rec: RoomRecord, r: IngestResult) {
    && (r == Failed(InvalidRoom) <==> rec.room != room)
    && (r.Ignored? ==> env.verify(rec) && !IsTclkLine(rec.text))
    && (r.Ingested? ==>
          && env.verify(rec) && IsTclkLine(rec.text)
          && ReadFrame(rec.text) == Good(r.frame) && Sender(r.frame) == rec.from)
  }

  /** Every result fits its record, and is a duplicate exactly when its delivery was taken before. */
  ghost predicate Answers(env: Env, room: Text, records: seq<RoomRecord>, results: seq<IngestResult>, seen: set<Text>)
    requires |results| <= |records|
  {
    forall i :: 0 <= i < |results| ==>
      && Fits(env, room, records[i], results[i])
      && (results[i].Duplicate? <==>
            records[i].room == room && DeliveryKey(records[i]) in seen + Taken(records, results[..i]))
  }

  /** The delivery keys that a list of results has taken. */
  ghost function Taken(records: seq<RoomRecord>, results: seq<IngestResult>): set<Text>
    requires |results| <= |records|
  {
    if results == [] then {}
    else
      var n := |results| - 1;
      Taken(records, results[..n])
      + if results[n].Ingested? || results[n].Ignored? then {DeliveryKey(records[n])} else {}
  }

  lemma NothingTaken(env: Env, room: Text, records: seq<RoomRecord>, seen: set<Text>)
    ensures Taken(records, []) == {} && Answers(env, room, records, [], seen)
  {
  }

  lemma {:induction false} OneMoreTaken(env: Env, room: Text, records: seq<RoomRecord>, results: seq<IngestResult>,
    r: IngestResult, seen: set<Text>)
    requires |results| < |records| && Answers(env, room, records, results, seen)
    requires Fits(env, room, records[|results|], r)
    requires r.Duplicate? <==>
      records[|results|].room == room && DeliveryKey(records[|results|]) in seen + Taken(records, results)
    ensures Answers(env, room, records, results + [r], seen)
    ensures Taken(records, results + [r])
      == Taken(records, results) + if r.Ingested? || r.Ignored? then {DeliveryKey(records[|results|])} else {}
  {
    hide DeliveryKey, Fits;
    var more := results + [r];
    assert more[..|results|] == results;
    assert forall j :: 0 <= j < |results| ==> more[..j] == results[..j];
  }

  lemma ThrownKeeps(h: HashFn, r: Record, e: Event)
    ensures Thrown(Apply(h, r, e)).Some? ==> Next(h, r, e) == r
  {
    hide Apply;
  }

  lemma AcceptDone(h: HashFn, r: Record, a: Accept, evm: Option<Text>, now: int)
    ensures Thrown(Apply(h, r, EAccept(a, evm, now))).None? <==> ApplyAccept(h, r, a, evm, now).Done?
  {
    hide ApplyAccept;
  }

  /** A created offer whose recomputed id is the wire id is filed rightly. */
  lemma {:induction false} NewOfferIsFiled(env: Env, room: Text, o: Offer, now: int, seqNo: int, hash: Text)
    requires var made := CreateOffer(env.h, env.bigInt, OfferParamsOf(room, o, now));
      made.Done? && made.record.offer.id == o.id
    ensures var made := CreateOffer(env.h, env.bigInt, OfferParamsOf(room, o, now));
      FiledByOffer(env.h, room, o.id, RecordSequence(made.record, OfferSeq, seqNo, hash))
  {
    hide ComputeOfferId, Next;
    var p := OfferParamsOf(room, o, now);
    CreateEstablishesInv(env.h, env.bigInt, p);
    var r := CreateOffer(env.h, env.bigInt, p).record;
    StepKeepsInv(env.h, r, ELedger(OfferSeq, seqNo, hash));
    LedgerNext(env.h, r, OfferSeq, seqNo, hash);
  }

  // ---- delivery keys ----

  lemma {:induction false} DecimalHasNoColon(n: nat)
    ensures forall i :: 0 <= i < |Decimal(n)| ==> Decimal(n)[i] != 58
  {
    if n >= 10 {
      DecimalHasNoColon(n / 10);
    }
  }

  lemma NumberHasNoColon(n: SafeInt)
    ensures forall i :: 0 <= i < |Number(n)| ==> Number(n)[i] != 58
  {
    hide Decimal;
    DecimalHasNoColon(if n < 0 then -n else n);
  }

  lemma NumberInjective(m: SafeInt, n: SafeInt)
    requires Number(m) == Number(n)
    ensures m == n
  {
    hide Number, ParseNumber;
    NumberReads(m, []);
    NumberReads(n, []);
  }

  /** The number before the first colon is the sequence number. */
  lemma ColonSplits(a: Text, x: Text, b: Text, y: Text)
    requires a + ([58] + x) == b + ([58] + y)
    requires forall i :: 0 <= i < |a| ==> a[i] != 58
    requires forall i :: 0 <= i < |b| ==> b[i] != 58
    ensures a == b && x == y
  {
    var s, t := a + ([58] + x), b + ([58] + y);
    assert s[|a|] == 58 && t[|b|] == 58;
    assert |a| == |b|;
    assert s[..|a|] == a && t[..|b|] == b && s[|a| + 1..] == x && t[|b| + 1..] == y;
  }

  /** Within one room the delivery key tells (seq, sig) pairs apart, so only a redelivery is taken for one. */
  lemma DeliveryKeyInjective(a: RoomRecord, b: RoomRecord)
    requires a.room == b.room && DeliveryKey(a) == DeliveryKey(b)
    ensures a.seqNo == b.seqNo && a.sig == b.sig
  {
    hide Number;
    NumberHasNoColon(a.seqNo);
    NumberHasNoColon(b.seqNo);
    var k := |a.room| + 1;
    assert DeliveryKey(a)[k..] == Number(a.seqNo) + ([58] + a.sig);
    assert DeliveryKey(b)[k..] == Number(b.seqNo) + ([58] + b.sig);
    ColonSplits(Number(a.seqNo), a.sig, Number(b.seqNo), b.sig);
    NumberInjective(a.seqNo, b.seqNo);
  }
}
