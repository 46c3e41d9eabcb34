/** What honest parties can rely on: their frames arrive, and a deal settles exactly when its rules were respected. */
module HonestDeals {
  import opened Options
  import opened Bytes
  import opened Text
  import opened Json
  import opened Keys
  import opened Printer
  import opened Parser
  import opened RoundTrip
  import opened Frames
  import opened Hex
  import opened Deal
  import opened Binding
  import opened DealManagers
  import opened DealRuns
  import opened RoomAdapter
  import opened FrameLaws

  // ---- objects with alike values ----

  lemma {:induction false} GetAlike(keys: seq<Key>, v: seq<Json>, w: seq<Json>, k: Text)
    requires |keys| == |v| == |w| && forall i :: 0 <= i < |v| ==> Canon(v[i]) == Canon(w[i])
    ensures Canon(Get(Build(keys, v), k)) == Canon(Get(Build(keys, w), k))
  {
    hide Canon, Name;
    if keys != [] {
      GetAlike(keys[1..], v[1..], w[1..], k);
    }
  }

  /** Objects of one list of names are canonically equal when their values are. */
  lemma {:induction false} BuildAlike(keys: seq<Key>, v: seq<Json>, w: seq<Json>)
    requires |keys| == |v| == |w| && Distinct(keys)
    requires forall i :: 0 <= i < |v| ==> Plain(v[i]) && Plain(w[i]) && Canon(v[i]) == Canon(w[i])
    ensures Canon(Obj(Build(keys, v))) == Canon(Obj(Build(keys, w)))
    ensures Plain(Obj(Build(keys, v))) && Plain(Obj(Build(keys, w)))
  {
    hide Build, Tidy, CanonMembers, Plain;
    BuildPlain(keys, v);
    BuildPlain(keys, w);
    var a, b := Build(keys, v), Build(keys, w);
    PlainObject(a);
    PlainObject(b);
    var c, d := CanonMembers(Tidy(a)), CanonMembers(Tidy(b));
    forall k: Text
      ensures Get(c, k) == Get(d, k) && (HasKey(c, k) <==> HasKey(d, k))
    {
      GetAlike(keys, v, w, k);
      TidyMembers(a, k);
      TidyMembers(b, k);
      CanonUndef(Get(a, k));
      CanonUndef(Get(b, k));
    }
    TidyMembers(a, []);
    TidyMembers(b, []);
    SortedExtensional(c, d);
  }

  /** Two offers that are one up to canonical form of the free-form members. */
  predicate AlikeOffers(o: Offer, p: Offer) {
    CanonOffer(o) == CanonOffer(p)
  }

  lemma {:induction false} AlikeValues(o: Offer, p: Offer)
    requires AlikeOffers(o, p)
    ensures forall i :: 0 <= i < 13 ==>
      && Plain(OfferValues(o)[i]) && Plain(OfferValues(p)[i])
      && Canon(OfferValues(o)[i]) == Canon(OfferValues(p)[i])
    ensures o.id == p.id
  {
    hide U, RoleText, LockKindText, Canon;
    FrameValuesPlain(FOffer(o));
    FrameValuesPlain(FOffer(p));
    assert p == o.(paymentKey := p.paymentKey, job := p.job);
    assert FrameValues(FOffer(o)) == OfferValues(o) + [Str(o.id)];
    assert FrameValues(FOffer(p)) == OfferValues(p) + [Str(p.id)];
    assert CanonOffer(o).paymentKey == Canon(o.paymentKey) && CanonOffer(o).job == Canon(o.job);
    assert CanonOffer(p).paymentKey == Canon(p.paymentKey) && CanonOffer(p).job == Canon(p.job);
    var v, w := OfferValues(o), OfferValues(p);
    forall i | 0 <= i < 13 ensures Plain(v[i]) && Plain(w[i]) && Canon(v[i]) == Canon(w[i]) {
      assert v[i] == FrameValues(FOffer(o))[i] && w[i] == FrameValues(FOffer(p))[i];
      assert i != 11 && i != 12 ==> v[i] == w[i];
    }
  }

  /** Alike offers have one offer id. */
  lemma {:induction false} AlikeOfferIds(h: HashFn, o: Offer, p: Offer)
    requires AlikeOffers(o, p)
    ensures ComputeOfferId(h, o) == ComputeOfferId(h, p)
  {
    hide AlikeOffers, Canon, Plain, CanonicalJson, OfferValues, Build, DomainHash, Distinct;
    OfferKeysDistinct();
    AlikeValues(o, p);
    BuildAlike(OFFER_KEYS, OfferValues(o), OfferValues(p));
    CanonPrintsAlike(OfferFields(o));
    CanonPrintsAlike(OfferFields(p));
  }

  /** Alike agreements have one contract id. */
  lemma {:induction false} AlikeContractIds(h: HashFn, o: Offer, p: Offer, a: AcceptCore, b: AcceptCore)
    requires AlikeOffers(o, p) && b == a.(paymentKey := b.paymentKey) && Canon(a.paymentKey) == Canon(b.paymentKey)
    ensures ComputeContractId(h, o, a) == ComputeContractId(h, p, b)
  {
    hide AlikeOffers, Canon, Plain, CanonicalJson, OfferValues, Build, DomainHash;
    AlikeOfferJson(o, p);
    AlikeCoreJson(a, b);
    BuildAlike([KOffer, KAccept], [OfferJson(o), CoreJson(a)], [OfferJson(p), CoreJson(b)]);
    CanonPrintsAlike(AgreementJson(o, a));
    CanonPrintsAlike(AgreementJson(p, b));
  }

  lemma {:induction false} AlikeOfferJson(o: Offer, p: Offer)
    requires AlikeOffers(o, p)
    ensures Canon(OfferJson(o)) == Canon(OfferJson(p)) && Plain(OfferJson(o)) && Plain(OfferJson(p))
  {
    hide AlikeOffers, OfferValues, Build, Distinct, CanonMembers, Tidy;
    OfferKeysDistinct();
    AlikeValues(o, p);
    BuildAlike(OFFER_KEYS + [KId], OfferValues(o) + [Str(o.id)], OfferValues(p) + [Str(p.id)]);
  }

  lemma {:induction false} AlikeCoreJson(a: AcceptCore, b: AcceptCore)
    requires b == a.(paymentKey := b.paymentKey) && Canon(a.paymentKey) == Canon(b.paymentKey)
    ensures Canon(CoreJson(a)) == Canon(CoreJson(b)) && Plain(CoreJson(a)) && Plain(CoreJson(b))
  {
    hide Build, Canon;
    BuildAlike(CORE_KEYS, [Str(a.from), Str(a.ref), Str(a.statement), a.paymentKey, Str(a.nonce)],
               [Str(b.from), Str(b.ref), Str(b.statement), b.paymentKey, Str(b.nonce)]);
  }

  // ---- an offer and its accept reach the other side ----

  lemma {:induction false} SortedStays(rails: seq<Text>)
    requires Ascending(rails)
    ensures SortedRails(rails) == rails
  {
    hide Less, Before;
    if rails != [] {
      var rest := rails[1..];
      assert Ascending(rest);
      SortedStays(rest);
      if rest != [] {
        assert Before(rails[0], rails[1]);
        LessIsBefore(rails[0], rest[0]);
        LessIsTotal(rails[0], rest[0]);
      }
      assert rails == [rails[0]] + rest;
    }
  }

  /** Every field of a created offer is what its creator asked for, and the creator has the role it names. */
  lemma {:induction false} OfferIsAsAsked(h: HashFn, bigInt: Text -> Option<int>, p: OfferParams)
    requires CreateOffer(h, bigInt, p).Done?
    ensures var r := CreateOffer(h, bigInt, p).record;
      && r.status == OFFERED && r.room == p.room && r.createdAtMs == r.updatedAtMs == p.now
      && (p.role == Payer ==> r.payer == p.creator) && (p.role == Payee ==> r.payee == p.creator)
      && r.offer.from == p.creator.did && r.offer.role == p.role && r.offer.amount == p.amount
      && r.offer.asset == p.asset && r.offer.claimByMs == p.claimByMs && r.offer.refundAfterMs == p.refundAfterMs
      && r.offer.expiresMs == p.expiresMs && r.offer.nonce == p.nonce
      && r.offer.paymentKey == p.paymentKey && r.offer.job == p.job
      && (p.lock.Some? ==> r.offer.lock == p.lock.value) && (p.lock.None? ==> r.offer.lock == HashLock)
      && Ascending(r.offer.rails)
      && (forall t :: t in r.offer.rails <==> if p.rails == [] then t == U("evm-htlc") else t in p.rails)
  {
    hide ComputeOfferId, U, Before;
    SortedRailsAscend(p.rails);
  }

  /**
   * A created offer that is sent is read by everyone in the room if and only if its creator is a did:key, its amount a
   * decimal numeral and its asset not empty: createOffer itself asks for none of these.
   */
  lemma {:induction false} OfferIsRead(h: HashFn, bigInt: Text -> Option<int>, p: OfferParams, v: Json)
    requires CreateOffer(h, bigInt, p).Done? && Plain(v) && v.Obj? && EncodeFrame(v).Good?
    requires Carries(v.members, FOffer(CreateOffer(h, bigInt, p).record.offer))
    ensures var o := CreateOffer(h, bigInt, p).record.offer;
      ReadFrame(EncodeFrame(v).value) == Good(FOffer(CanonOffer(o)))
      <==> IsDidText(o.from) && PositiveDecimal(o.amount) && o.asset != []
  {
    hide ComputeOfferId, Carries, Plain, IsDidText, PositiveDecimal, EncodeFrame, ReadFrame, CanonJs, Ascending;
    var o := CreateOffer(h, bigInt, p).record.offer;
    FrameTravels(v, FOffer(o), FOffer(CanonOffer(o)));
    CreateEstablishesInv(h, bigInt, p);
    OfferIdIsSpelled(h, o);
    OfferHasRails(h, bigInt, p);
  }

  lemma {:induction false} BuildPrintable(keys: seq<Key>, values: seq<Json>)
    requires |keys| == |values| && forall i :: 0 <= i < |values| ==> values[i] == Undef || Printable(values[i])
    ensures Printable(Obj(Build(keys, values)))
  {
    if keys != [] {
      BuildPrintable(keys[1..], values[1..]);
    }
  }

  /** Parameters of an offer for one unit of an asset without a name. */
  function Assetless(): OfferParams {
    OfferParams(U("room"), Participant(U("did:key:z"), None), Role.Payer, None, U("1"), [], None, [], 1, 2, 3, [],
                Undef, Undef, 0)
  }

  lemma {:induction false} AssetlessHasId(h: HashFn)
    ensures ComputeOfferId(h, DraftOffer(Assetless())).Some?
  {
    hide CanonicalJson, Build, U, DomainHash;
    var draft := DraftOffer(Assetless());
    assert TextItems(draft.rails) == Item(Str(U("evm-htlc")), NoItems);
    BuildPrintable(OFFER_KEYS, OfferValues(draft));
    PrintsIffPrintable(OfferFields(draft));
  }

  /** So an offer of a nameless asset is created and sent, and no reader takes it. */
  lemma {:induction false} AssetlessOfferIsUnread(h: HashFn, bigInt: Text -> Option<int>, v: Json)
    requires bigInt(U("1")) == Some(1)
    ensures CreateOffer(h, bigInt, Assetless()).Done?
    ensures var o := CreateOffer(h, bigInt, Assetless()).record.offer;
      Plain(v) && v.Obj? && Carries(v.members, FOffer(o)) && EncodeFrame(v).Good?
      ==> ReadFrame(EncodeFrame(v).value).Bad?
  {
    hide Plain, Carries, EncodeFrame, ReadFrame, ComputeOfferId, IsDidText, PositiveDecimal, Spells32;
    AssetlessHasId(h);
    var o := CreateOffer(h, bigInt, Assetless()).record.offer;
    if Plain(v) && v.Obj? && EncodeFrame(v).Good? && Carries(v.members, FOffer(o))
       && ReadFrame(EncodeFrame(v).value).Good? {
      FrameTravels(v, FOffer(o), ReadFrame(EncodeFrame(v).value).value);
    }
  }

  lemma {:induction false} OfferHasRails(h: HashFn, bigInt: Text -> Option<int>, p: OfferParams)
    requires CreateOffer(h, bigInt, p).Done?
    ensures CreateOffer(h, bigInt, p).record.offer.rails != []
  {
    hide ComputeOfferId, U, Ascending, SortedRails;
    SortedRailsAscend(p.rails);
    if p.rails != [] {
      assert p.rails[0] in SortedRails(p.rails);
    }
  }

  lemma OfferIdIsSpelled(h: HashFn, o: Offer)
    requires ComputeOfferId(h, o) == Some(o.id)
    ensures Spells32(o.id)
  {
    hide CanonicalJson, HexText, Preimage, Spells32, ValidHex32, OfferFields, Lower;
    DigestText(h(Preimage(OfferTag, CanonicalJson(OfferFields(o)).value)));
    HexIsSpelled(o.id);
  }

  /**
   * The other side's own creation from the offer read: it succeeds exactly before the offer expires, under the id on
   * the wire, and its record holds the same offer.
   */
  lemma {:induction false} OfferIsFiled(h: HashFn, bigInt: Text -> Option<int>, p: OfferParams, room: Text, now: int)
    requires CreateOffer(h, bigInt, p).Done? && room != []
    ensures var o := CreateOffer(h, bigInt, p).record.offer;
      var copy := CreateOffer(h, bigInt, OfferParamsOf(room, CanonOffer(o), now));
      && (copy.Done? <==> now < o.expiresMs)
      && (copy.Done? ==> copy.record.offer == CanonOffer(o) && copy.record.offer.id == o.id)
  {
    hide ComputeOfferId, SortedRails, Ascending, CanonJs;
    var o := CreateOffer(h, bigInt, p).record.offer;
    OfferIsAsAsked(h, bigInt, p);
    OfferHasRails(h, bigInt, p);
    CreateEstablishesInv(h, bigInt, p);
    SortedStays(o.rails);
    var copy := CanonOffer(o);
    CanonOfferTwice(o);
    AlikeOfferIds(h, o, copy);
    OfferIdIgnoresId(h, copy, []);
    assert DraftOffer(OfferParamsOf(room, copy, now)) == copy.(id := []);
  }

  lemma CanonOfferTwice(o: Offer)
    ensures AlikeOffers(o, CanonOffer(o))
  {
    hide Canon;
    CanonTwice(o.paymentKey);
    CanonTwice(o.job);
  }

  /**
   * An accept computed by one side over its copy of the offer, and sent, is read and applied by every side that still
   * holds the offer, in whatever letter case its statement is: exactly when it names that offer, comes from another
   * did:key, and arrives before the offer expires.
   */
  lemma {:induction false} AcceptIsApplied(h: HashFn, r: Record, mine: Offer, a: AcceptCore, v: Json,
      evm: Option<Text>, now: int)
    requires Inv(h, r) && r.status == OFFERED && AlikeOffers(mine, r.offer) && ValidHex32(a.statement)
    requires ComputeContractId(h, mine, NormalizedCore(a)).Some?
    requires Plain(v) && v.Obj? && EncodeFrame(v).Good?
    requires Carries(v.members, FAccept(Accept(a, ComputeContractId(h, mine, NormalizedCore(a)).value)))
    ensures var id := ComputeContractId(h, mine, NormalizedCore(a)).value;
      var sent := FAccept(Accept(a.(paymentKey := CanonJs(a.paymentKey)), id));
      && (ReadFrame(EncodeFrame(v).value) == Good(sent) && ApplyAccept(h, r, sent.a, evm, now).Done?
          <==> IsDidText(a.from) && a.ref == r.offer.id && a.from != r.offer.from && now < r.offer.expiresMs)
      && (ApplyAccept(h, r, sent.a, evm, now).Done? ==>
            ApplyAccept(h, r, sent.a, evm, now).record.contractId == id)
  {
    hide ComputeContractId, ComputeOfferId, AlikeOffers, Carries, Plain, IsDidText, EncodeFrame, ReadFrame, Canon,
      Lower, ValidHex32, Spells32;
    var id := ComputeContractId(h, mine, NormalizedCore(a)).value;
    var sent := Accept(a.(paymentKey := CanonJs(a.paymentKey)), id);
    FrameTravels(v, FAccept(Accept(a, id)), FAccept(sent));
    CanonTwice(a.paymentKey);
    AlikeContractIds(h, mine, r.offer, NormalizedCore(a), NormalizedCore(sent.core));
    HexIsSpelled(a.statement);
    OfferIdIsSpelled(h, r.offer);
    ContractIdIsSpelled(h, mine, NormalizedCore(a));
  }

  lemma ContractIdIsSpelled(h: HashFn, o: Offer, a: AcceptCore)
    requires ComputeContractId(h, o, a).Some?
    ensures Spells32(ComputeContractId(h, o, a).value)
  {
    hide CanonicalJson, HexText, Preimage, Spells32, ValidHex32, AgreementJson, Lower;
    var id := ComputeContractId(h, o, a).value;
    DigestText(h(Preimage(ContractTag, CanonicalJson(AgreementJson(o, a)).value)));
    HexIsSpelled(id);
  }

  // ---- an accepted deal settles exactly by the rules ----

  lemma RunAppend(h: HashFn, r: Record, events: seq<Event>, e: Event)
    ensures Run(h, r, events + [e]) == Next(h, Run(h, r, events), e)
  {
    hide Next;
    assert (events + [e])[..|events|] == events;
  }

  /** The agreed payer and payee, by the offer's role. */
  function AgreedPayer(o: Offer, a: Accept): Text {
    match o.role case Payer => o.from case Payee => a.core.from
  }

  function AgreedPayee(o: Offer, a: Accept): Text {
    match o.role case Payer => a.core.from case Payee => o.from
  }

  /** The lock frame the rules ask for: by the payer, for this contract, on an offered rail, before the deadline. */
  predicate RightLock(r: Record, l: Lock, now: int)
    requires r.accept.Some?
  {
    && l.from == AgreedPayer(r.offer, r.accept.value) && Lower(l.contract) == Lower(r.contractId)
    && l.rail in r.offer.rails && now < r.offer.refundAfterMs
  }

  /** The secret spells 32 bytes whose SHA-256 is the statement. */
  ghost predicate OpensStatement(h: HashFn, secret: Text, statement: Text) {
    exists b: Bytes ::
      && |b| == 32 && |secret| >= 2 && secret[..2] == [48, 120] && Lower(secret) == HexText(b)
      && HexText(h(b).bytes) == Lower(statement)
  }

  /** The reveal the rules ask for: by the payee, with the right secret, before the deadline. */
  ghost predicate RightReveal(h: HashFn, r: Record, secret: Text, from: Text, now: int)
    requires r.accept.Some?
  {
    && from == AgreedPayee(r.offer, r.accept.value) && now < r.offer.refundAfterMs
    && OpensStatement(h, secret, r.accept.value.core.statement)
  }

  lemma {:induction false} SecretOpens(h: HashFn, secret: Text, statement: Text)
    ensures OpensStatement(h, secret, statement)
      <==> ValidHex32(secret) && Sha256Hex(h, secret) == Lower(statement)
  {
    hide HexBody, BodyBytes, ValidHex32;
    HexIsSpelled(secret);
    if ValidHex32(secret) {
      var body := Lower32(secret)[2..];
      Lower32IsHex(secret);
      BytesReads(body);
      LowerTwice(secret);
      assert Lower(body) == Lower(Lower(secret))[2..];
      assert Lower(secret) == HexText(BodyBytes(body));
      if OpensStatement(h, secret, statement) {
        var b: Bytes :|
          && |b| == 32 && |secret| >= 2 && secret[..2] == [48, 120] && Lower(secret) == HexText(b)
          && HexText(h(b).bytes) == Lower(statement);
        HexTextInjective(b, BodyBytes(body));
      }
    }
  }

  lemma Lower32IsHex(t: Text)
    requires ValidHex32(t)
    ensures Lower(t)[..2] == [48, 120] && AllHex(Lower(t)[2..]) && |Lower(t)| == 66
  {
  }

  lemma {:induction false} LockMoves(h: HashFn, r: Record, l: Lock, now: int)
    requires Inv(h, r) && r.status == ACCEPTED
    ensures var s := Next(h, r, ELock(l, now));
      if RightLock(r, l, now) then s.status == LOCKED && s.rail == Some(l.rail) && s.ref == Some(l.ref) else s == r
  {
    hide Lower, ValidHex32, ComputeOfferId, ComputeContractId, NormalizedCore;
  }

  lemma {:induction false} OpeningMoves(h: HashFn, r: Record, secret: Text, from: Text, now: int)
    requires Inv(h, r) && r.status in {LOCKED, VERIFIED}
    ensures var s := Next(h, r, EReveal(secret, from, now));
      if RightReveal(h, r, secret, from, now) then s.status == REVEALED else s == r
  {
    hide Lower, ValidHex32, ComputeOfferId, ComputeContractId, NormalizedCore, OpensStatement, Sha256Hex;
    SecretOpens(h, secret, r.accept.value.core.statement);
  }

  lemma {:induction false} RefundMovesExactly(h: HashFn, r: Record, from: Text, now: int)
    requires Inv(h, r) && r.status in {LOCKED, VERIFIED, REVEALED}
    ensures var s := Next(h, r, ERefund(from, now));
      if from == AgreedPayer(r.offer, r.accept.value) && now >= r.offer.refundAfterMs then s.status == REFUNDED
      else s == r
  {
    hide Lower, ValidHex32, ComputeOfferId, ComputeContractId, NormalizedCore;
  }

  lemma {:induction false} ClaimOrReceiptMoves(h: HashFn, r: Record, now: int, receipt: Receipt, at: int)
    requires Inv(h, r) && r.status in {LOCKED, VERIFIED, REVEALED, CLAIMED, REFUNDED}
    ensures Next(h, r, EClaim(now)).status == if r.status == REVEALED then CLAIMED else r.status
    ensures var s := Next(h, r, EReceipt(receipt, at));
      s.status == r.status
      && (r.receipt.None? ==>
            s.receipt == if Lower(receipt.contract) == Lower(r.contractId)
              && ((receipt.outcome == Claimed && r.status == CLAIMED)
                  || (receipt.outcome == Refunded && r.status == REFUNDED))
            then Some(receipt) else None)
  {
    hide Lower, ValidHex32, ComputeOfferId, ComputeContractId, NormalizedCore, Agreed, Unagreed, Unlocked;
  }

  /** A comparison changes no more than the status, to VERIFIED, of a deal that is locked. */
  lemma {:induction false} VerifyKeeps(h: HashFn, r: Record, ref: Option<Text>, now: int)
    requires Inv(h, r) && r.status == LOCKED
    ensures var s := Next(h, r, EVerify(ref, now));
      Inv(h, s) && s.status in {LOCKED, VERIFIED} && s.offer == r.offer && s.accept == r.accept
      && s.receipt == r.receipt
      && (s.status == VERIFIED <==> ref.None? || ref == r.ref)
  {
    hide Inv;
    StepKeepsInv(h, r, EVerify(ref, now));
  }

  /** Before a lock none of the later events does anything. */
  lemma UnlockedStays(h: HashFn, r: Record, e: Event)
    requires Inv(h, r) && r.status == ACCEPTED
    requires e.EVerify? || e.EReveal? || e.EClaim? || e.ERefund? || e.EReceipt?
    ensures Next(h, r, e) == r && r.receipt.None?
  {
    hide Lower, ComputeOfferId, ComputeContractId, NormalizedCore, Agreed, Unagreed, Unlocked, Sha256Hex;
  }

  lemma {:induction false} LockKeeps(h: HashFn, r: Record, l: Lock, now: int)
    requires Inv(h, r) && r.status == ACCEPTED
    ensures var s := Next(h, r, ELock(l, now));
      && Inv(h, s) && s.offer == r.offer && s.accept == r.accept && s.contractId == r.contractId && s.receipt.None?
      && r.accept.Some?
  {
    hide Lower, ComputeOfferId, ComputeContractId, NormalizedCore, ValidHex32;
    StepKeepsInv(h, r, ELock(l, now));
  }

  /**
   * Lock frame, comparison, reveal frame, claim and receipt frame after an accept: the deal ends claimed exactly when
   * lock and reveal were right, whatever the comparison said, and keeps the receipt exactly when it names the outcome.
   */
  lemma {:induction false} SettlesByClaim(h: HashFn, r: Record, l: Lock, t1: int, ref: Option<Text>, t2: int,
      secret: Text, from: Text, t3: int, t4: int, receipt: Receipt, t5: int)
    requires Inv(h, r) && r.status == ACCEPTED
    ensures var s := Run(h, r, [FrameEvent(FLock(l), None, t1, t1), EVerify(ref, t2),
                                FrameEvent(FReveal(from, l.contract, secret), None, t3, t3), EClaim(t4),
                                FrameEvent(FReceipt(receipt), None, t5, t5)]);
      && (s.status == CLAIMED <==> RightLock(r, l, t1) && RightReveal(h, r, secret, from, t3))
      && (s.receipt == Some(receipt) <==>
            s.status == CLAIMED && receipt.outcome == Claimed && Lower(receipt.contract) == Lower(r.contractId))
  {
    hide Inv, Next, RightLock, OpensStatement, Lower, Run;
    var lock, verify, shown := ELock(l, t1), EVerify(ref, t2), EReveal(secret, from, t3);
    RunFive(h, r, lock, verify, shown, EClaim(t4), EReceipt(receipt, t5));
    LockMoves(h, r, l, t1);
    LockKeeps(h, r, l, t1);
    if RightLock(r, l, t1) {
      var locked := Next(h, r, lock);
      VerifyKeeps(h, locked, ref, t2);
      StepKeepsContract(h, locked, verify);
      var compared := Next(h, locked, verify);
      OpeningMoves(h, compared, secret, from, t3);
      StepKeepsContract(h, compared, shown);
      var revealed := Next(h, compared, shown);
      ClaimOrReceiptMoves(h, revealed, t4, receipt, t5);
      StepKeepsContract(h, revealed, EClaim(t4));
      ClaimOrReceiptMoves(h, Next(h, revealed, EClaim(t4)), t4, receipt, t5);
    } else {
      UnlockedStays(h, r, verify);
      UnlockedStays(h, r, shown);
      UnlockedStays(h, r, EClaim(t4));
      UnlockedStays(h, r, EReceipt(receipt, t5));
    }
  }

  /** Lock frame, comparison, refund frame and receipt frame: refunded exactly when lock and refund were right. */
  lemma {:induction false} SettlesByRefund(h: HashFn, r: Record, l: Lock, t1: int, ref: Option<Text>, t2: int,
      from: Text, t3: int, receipt: Receipt, t4: int)
    requires Inv(h, r) && r.status == ACCEPTED
    ensures var s := Run(h, r, [FrameEvent(FLock(l), None, t1, t1), EVerify(ref, t2),
                                FrameEvent(FRefund(from, l.contract), None, t3, t3),
                                FrameEvent(FReceipt(receipt), None, t4, t4)]);
      && (s.status == REFUNDED <==>
            && RightLock(r, l, t1)
            && from == AgreedPayer(r.offer, r.accept.value) && t3 >= r.offer.refundAfterMs)
      && (s.receipt == Some(receipt) <==>
            s.status == REFUNDED && receipt.outcome == Refunded && Lower(receipt.contract) == Lower(r.contractId))
  {
    hide Inv, Next, RightLock, Lower, Run;
    var lock, verify, refund := ELock(l, t1), EVerify(ref, t2), ERefund(from, t3);
    RunFour(h, r, lock, verify, refund, EReceipt(receipt, t4));
    LockMoves(h, r, l, t1);
    LockKeeps(h, r, l, t1);
    if RightLock(r, l, t1) {
      var locked := Next(h, r, lock);
      VerifyKeeps(h, locked, ref, t2);
      StepKeepsContract(h, locked, verify);
      var compared := Next(h, locked, verify);
      RefundMovesExactly(h, compared, from, t3);
      StepKeepsContract(h, compared, refund);
      ClaimOrReceiptMoves(h, Next(h, compared, refund), t4, receipt, t4);
    } else {
      UnlockedStays(h, r, verify);
      UnlockedStays(h, r, refund);
      UnlockedStays(h, r, EReceipt(receipt, t4));
    }
  }

  /** A deal that is not locked is cancelled exactly by one of its parties. */
  lemma {:induction false} CancelsExactly(h: HashFn, r: Record, from: Text, contract: Text, now: int)
    requires Inv(h, r) && (r.status == OFFERED || r.status == ACCEPTED)
    ensures var s := Run(h, r, [FrameEvent(FCancel(from, contract), None, now, now)]);
      s.status == CANCELLED <==>
        if r.status == OFFERED then from == r.offer.from || from == r.payer.did || from == r.payee.did
        else from == r.offer.from || from == r.accept.value.core.from
  {
    hide Lower, ValidHex32, ComputeOfferId, ComputeContractId, NormalizedCore, Next, Run;
    EmptyRun(h, r);
    RunAppend(h, r, [], ECancel(from, now));
    assert [] + [ECancel(from, now)] == [ECancel(from, now)];
    CancelMoves(h, r, from, now);
  }

  lemma {:induction false} CancelMoves(h: HashFn, r: Record, from: Text, now: int)
    requires Inv(h, r) && (r.status == OFFERED || r.status == ACCEPTED)
    ensures Next(h, r, ECancel(from, now)).status == CANCELLED
      <==> from == r.payer.did || from == r.payee.did || from == r.offer.from
  {
    hide Inv;
  }

  lemma RunFour(h: HashFn, r: Record, a: Event, b: Event, c: Event, d: Event)
    ensures Run(h, r, [a, b, c, d]) == Next(h, Next(h, Next(h, Next(h, r, a), b), c), d)
  {
    hide Next, Run;
    EmptyRun(h, r);
    RunAppend(h, r, [], a);
    RunAppend(h, r, [a], b);
    RunAppend(h, r, [a, b], c);
    RunAppend(h, r, [a, b, c], d);
    assert [] + [a] == [a] && [a] + [b] == [a, b] && [a, b] + [c] == [a, b, c] && [a, b, c] + [d] == [a, b, c, d];
  }

  lemma RunFive(h: HashFn, r: Record, a: Event, b: Event, c: Event, d: Event, e: Event)
    ensures Run(h, r, [a, b, c, d, e]) == Next(h, Next(h, Next(h, Next(h, Next(h, r, a), b), c), d), e)
  {
    hide Next, Run;
    RunFour(h, r, a, b, c, d);
    RunAppend(h, r, [a, b, c, d], e);
    assert [a, b, c, d] + [e] == [a, b, c, d, e];
  }

  lemma {:induction false} StepKeepsContract(h: HashFn, r: Record, e: Event)
    requires Inv(h, r) && r.status in {LOCKED, VERIFIED, REVEALED} && !e.EReceipt?
    ensures var s := Next(h, r, e);
      && Inv(h, s) && s.offer == r.offer && s.accept == r.accept && s.contractId == r.contractId
      && s.receipt == r.receipt
  {
    StepKeepsInv(h, r, e);
    StepKeepsAgreement(h, r, e);
    ReceiptStays(h, r, e);
    hide Next, ComputeOfferId, ComputeContractId, NormalizedCore, Lower, ValidHex32;
  }

  lemma ReceiptStays(h: HashFn, r: Record, e: Event)
    requires !e.EReceipt?
    ensures Next(h, r, e).receipt == r.receipt
  {
    hide ComputeContractId, Lower, ValidHex32, Sha256Hex, NormalizedCore, ProjectLockTerms;
  }

  // ---- a frame in a record ----

  /** The record is new to the adapter, signed, for its room, and holds the line of this frame sent by its sender. */
  ghost predicate Delivers(adapter: RoomDealAdapter, env: Env, rec: RoomRecord, f: Frame)
    reads adapter
  {
    && rec.room == adapter.room && DeliveryKey(rec) !in adapter.seen && env.verify(rec) && rec.from == Sender(f)
    && WellFormed(f)
    && exists v: Json ::
         Plain(v) && v.Obj? && Carries(v.members, f) && EncodeFrame(v) == Good(rec.text)
  }

  lemma {:induction false} DeliveredIsRead(adapter: RoomDealAdapter, env: Env, rec: RoomRecord, f: Frame)
    requires Delivers(adapter, env, rec, f)
    ensures IsTclkLine(rec.text) && ReadFrame(rec.text) == Good(CanonFrame(f)) && Sender(CanonFrame(f)) == rec.from
  {
    hide Carries, WellFormed, Plain, ReadFrame, ToAscii, CanonicalJson, CanonJs;
    var v: Json :| Plain(v) && v.Obj? && Carries(v.members, f) && EncodeFrame(v) == Good(rec.text);
    FrameTravels(v, f, CanonFrame(f));
  }

  /**
   * A frame about a filed deal, delivered for the first time, is ingested exactly when the deal takes its event at the
   * record's moment; nothing else can be said against it.
   */
  lemma {:induction false} FrameIsIngested(adapter: RoomDealAdapter, env: Env, rec: RoomRecord, f: Frame, k: Text,
      evm: Option<Text>, wall: int)
    requires adapter.Valid(env.h) && Delivers(adapter, env, rec, f)
    requires !f.FOffer? && !f.FAccept? && k in adapter.dealsByContract
    requires Lower(ContractOf(f)) == adapter.dealsByContract[k].record.contractId
    ensures adapter.Verdict(env, rec, evm, wall) == Ingested(f)
      <==> Apply(env.h, adapter.dealsByContract[k].record, FrameEvent(f, evm, Moment(env, rec, wall), wall)).Done?
  {
    hide Delivers, ReadFrame, Inv, FiledByOffer, FiledByContract, Apply, Moment, DeliveryKey, IsTclkLine, Lower;
    DeliveredIsRead(adapter, env, rec, f);
    assert rec.room == adapter.room && DeliveryKey(rec) !in adapter.seen && env.verify(rec) by {
      DeliveredIsNew(adapter, env, rec, f);
    }
    adapter.FramesReachTheirDeal(env.h, f, k);
  }

  lemma DeliveredIsNew(adapter: RoomDealAdapter, env: Env, rec: RoomRecord, f: Frame)
    requires Delivers(adapter, env, rec, f)
    ensures rec.room == adapter.room && DeliveryKey(rec) !in adapter.seen && env.verify(rec)
  {
    hide Carries, WellFormed, Plain, EncodeFrame;
  }

  /** So a delivered lock frame is ingested on an accepted deal exactly if it is the lock the rules ask for. */
  lemma {:induction false} LockIsIngested(adapter: RoomDealAdapter, env: Env, rec: RoomRecord, l: Lock, k: Text,
      evm: Option<Text>, wall: int)
    requires adapter.Valid(env.h) && Delivers(adapter, env, rec, FLock(l)) && k in adapter.dealsByContract
    requires var r := adapter.dealsByContract[k].record;
      r.status == ACCEPTED && Lower(l.contract) == r.contractId && r.accept.Some?
    ensures adapter.Verdict(env, rec, evm, wall) == Ingested(FLock(l))
      <==> RightLock(adapter.dealsByContract[k].record, l, Moment(env, rec, wall))
  {
    hide Delivers, ReadFrame, Inv, FiledByOffer, FiledByContract, Moment, DeliveryKey, IsTclkLine, Lower, RightLock;
    FrameIsIngested(adapter, env, rec, FLock(l), k, evm, wall);
    adapter.ContractInv(env.h, k);
    LockIsDone(env.h, adapter.dealsByContract[k].record, l, Moment(env, rec, wall));
  }

  lemma {:induction false} LockIsDone(h: HashFn, r: Record, l: Lock, now: int)
    requires Inv(h, r) && r.status == ACCEPTED
    ensures r.accept.Some? && (ApplyLock(r, l, now).Done? <==> RightLock(r, l, now))
  {
    hide Lower, ValidHex32, ComputeOfferId, ComputeContractId, NormalizedCore;
  }

  // ---- redelivery and conflict ----

  /** Where a deal stands once an event has been applied. */
  function StatusAfter(e: Event): Option<Status> {
    match e
    case EAccept(_, _, _) => Some(ACCEPTED)
    case ELock(_, _) => Some(LOCKED)
    case EVerify(_, _) => Some(VERIFIED)
    case EReveal(_, _, _) => Some(REVEALED)
    case EClaim(_) => Some(CLAIMED)
    case ERefund(_, _) => Some(REFUNDED)
    case ECancel(_, _) => Some(CANCELLED)
    case EReceipt(_, _) => None
    case ELedger(_, _, _) => None
  }

  /** The second event says the same as what the deal took when it reached its status. */
  predicate SaysTheSame(h: HashFn, r: Record, e: Event) {
    match e
    case EAccept(a, _, _) => Lower(a.contract) == Lower(r.contractId)
    case ELock(l, _) => r.rail == Some(l.rail) && r.ref == Some(l.ref)
    case EVerify(ref, _) => ref.None? || r.ref == ref
    case EReveal(secret, _, _) =>
      ValidHex32(secret) && r.terms.Some? && Sha256Hex(h, secret) == Lower(r.terms.value.statement)
    case _ => true
  }

  /**
   * An event that arrives again, by anyone at any time, is taken without a change; one that contradicts what was taken
   * is refused, and so is every event of the lifecycle once the deal has settled otherwise.
   */
  lemma {:induction false} RepeatsExactly(h: HashFn, r: Record, e: Event)
    requires Inv(h, r) && StatusAfter(e).Some?
    ensures r.status == StatusAfter(e).value ==>
      if SaysTheSame(h, r, e) then Apply(h, r, e) == Done(r) else Apply(h, r, e).Threw?
    ensures IsTerminal(r.status) && r.status != StatusAfter(e).value ==> Apply(h, r, e).Threw?
  {
    hide Lower, ValidHex32, ComputeOfferId, ComputeContractId, NormalizedCore, Sha256Hex;
  }

  // ---- the ledger evidence ----

  /** A frame that is taken notes its record's number and hash under its own stage, and touches no other entry. */
  lemma {:induction false} EvidenceIsNoted(h: HashFn, r: Record, f: Frame, now: int, seqNo: int, hash: Text)
    requires !f.FOffer? && hash != []
    ensures var s := After(h, r, FrameEvent(f, None, now, now), FrameStage(f), seqNo, hash);
      if f.FCancel? then s.sequences == r.sequences && s.hashes == r.hashes
      else
        var stage :=
          if f.FAccept? then AcceptSeq else if f.FLock? then LockSeq else if f.FReveal? then RevealSeq
          else if f.FRefund? then RefundSeq else ReceiptSeq;
        && stage in s.sequences && s.sequences[stage] == seqNo && stage in s.hashes && s.hashes[stage] == hash
        && s.sequences - {stage} == r.sequences - {stage} && s.hashes - {stage} == r.hashes - {stage}
  {
    hide Next;
    NextKeepsEvidence(h, r, FrameEvent(f, None, now, now));
  }

  lemma NextKeepsEvidence(h: HashFn, r: Record, e: Event)
    requires !e.ELedger?
    ensures Next(h, r, e).sequences == r.sequences && Next(h, r, e).hashes == r.hashes
  {
    hide Lower, ValidHex32, ComputeContractId, NormalizedCore, Sha256Hex, ProjectLockTerms;
  }

  // ---- the time and the evidence hash of a record ----

  /** A record is read at one moment whenever it is read exactly if its date parses to other than the epoch. */
  lemma MomentIsDated(env: Env, rec: RoomRecord, date: int)
    ensures (forall wall :: Moment(env, rec, wall) == date) <==> env.parseDate(rec.ts) == Some(date) && date != 0
  {
    if forall wall :: Moment(env, rec, wall) == date {
      assert Moment(env, rec, date + 1) == date;
    }
  }

  lemma RecordPlain(rec: RoomRecord)
    ensures Distinct(RECORD_KEYS) && Plain(RecordJson(rec))
  {
    hide Build;
    BuildPlain(RECORD_KEYS, RecordValues(rec));
  }

  /** One record, up to the canonical form of its nonce. */
  ghost predicate SameRecord(a: RoomRecord, b: RoomRecord) {
    b == a.(nonce := b.nonce) && Same(a.nonce, b.nonce)
  }

  lemma {:induction false} RecordsDetermined(a: RoomRecord, b: RoomRecord)
    requires Same(RecordJson(a), RecordJson(b))
    ensures SameRecord(a, b)
  {
    hide Build;
    var v, w := RecordValues(a), RecordValues(b);
    RecordPlain(a);
    forall i | 0 <= i < 7 ensures Same(v[i], w[i]) {
      BuildSame(RECORD_KEYS, v, w, i);
    }
    assert Same(v[0], w[0]) && Same(v[1], w[1]) && Same(v[2], w[2]) && Same(v[3], w[3]) && Same(v[4], w[4]);
    assert Same(v[5], w[5]) && Same(v[6], w[6]);
  }

  /** The recorded hash of a record fixes the whole record, or the collision is computed. */
  function RecordHashCollision(h: HashFn, a: RoomRecord, b: RoomRecord): (c: Collision)
    requires RecordHash(h, a) != [] && RecordHash(h, a) == RecordHash(h, b) && !SameRecord(a, b)
    ensures IsCollision(h, c)
  {
    hide SameRecord, CanonicalJson, ToAscii, RecordJson, Same, HexText, Plain;
    var x, y := CanonicalJson(RecordJson(a)).value, CanonicalJson(RecordJson(b)).value;
    ToAsciiIsAscii(x);
    ToAsciiIsAscii(y);
    HexTextInjective(h(AsciiBytes(ToAscii(x))).bytes, h(AsciiBytes(ToAscii(y))).bytes);
    assert AsciiBytes(ToAscii(x)) != AsciiBytes(ToAscii(y)) by {
      RecordPlain(a);
      RecordPlain(b);
      CanonicalUnambiguous(RecordJson(a), RecordJson(b));
      if AsciiBytes(ToAscii(x)) == AsciiBytes(ToAscii(y)) {
        AsciiBytesInjective(ToAscii(x), ToAscii(y));
        RecordsDetermined(a, b);
      }
    }
    Collision(AsciiBytes(ToAscii(x)), AsciiBytes(ToAscii(y)))
  }
}
