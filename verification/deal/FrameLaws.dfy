/** Typed frames on the wire: which members a frame has, and that the reader gives back the frame that was written. */
module FrameLaws {
  import opened Options
  import opened Bytes
  import opened Text
  import opened Json
  import opened Keys
  import opened Printer
  import opened Parser
  import opened RoundTrip
  import opened Frames
  import opened Hex
  import opened Deal
  import opened Binding
  import opened RoomAdapter

  // ---- the members of a frame ----

  function OutcomeText(s: Settlement): Text {
    match s case Claimed => U("claimed") case Refunded => U("refunded") case Cancelled => U("cancelled")
  }

  function FrameKeys(f: Frame): seq<Key> {
    match f
    case FOffer(_) => OFFER_KEYS + [KId]
    case FAccept(_) => [KType, KFrom, KRef, KStatement, KPaymentKey, KNonce, KContract]
    case FLock(_) => [KType, KFrom, KContract, KRail, KRef]
    case FReveal(_, _, _) => [KType, KFrom, KContract, KSecret]
    case FRefund(_, _) => [KType, KFrom, KContract]
    case FCancel(_, _) => [KType, KFrom, KContract]
    case FReceipt(_) => [KType, KFrom, KContract, KOutcome]
  }

  function FrameValues(f: Frame): (vs: seq<Json>)
    ensures |vs| == |FrameKeys(f)|
  {
    match f
    case FOffer(o) => OfferValues(o) + [Str(o.id)]
    case FAccept(a) =>
      [Str(U("accept")), Str(a.core.from), Str(a.core.ref), Str(a.core.statement), a.core.paymentKey,
       Str(a.core.nonce), Str(a.contract)]
    case FLock(l) => [Str(U("lock")), Str(l.from), Str(l.contract), Str(l.rail), Str(l.ref)]
    case FReveal(from, contract, secret) => [Str(U("reveal")), Str(from), Str(contract), Str(secret)]
    case FRefund(from, contract) => [Str(U("refund")), Str(from), Str(contract)]
    case FCancel(from, contract) => [Str(U("cancel")), Str(from), Str(contract)]
    case FReceipt(r) => [Str(U("receipt")), Str(r.from), Str(r.contract), Str(OutcomeText(r.outcome))]
  }

  /** The object a sender encodes: the frame's members and any others, such as a reference or a reason. */
  function SentJson(f: Frame, keys: seq<Key>, values: seq<Json>): Json
    requires |keys| == |values|
  {
    Obj(Build(FrameKeys(f) + keys, FrameValues(f) + values))
  }

  /** The members read as the frame's, in whatever order and whatever else is there. */
  ghost predicate Carries(m: Members, f: Frame) {
    forall i :: 0 <= i < |FrameKeys(f)| ==> Get(m, Name(FrameKeys(f)[i])) == FrameValues(f)[i]
  }

  ghost predicate PositiveDecimal(t: Text) {
    exists n: nat :: n > 0 && t == Decimal(n)
  }

  /** Thirty-two bytes in hex, in either letter case. */
  ghost predicate Spells32(t: Text) {
    |t| >= 2 && t[..2] == [48, 120] && exists b: Bytes :: |b| == 32 && Lower(t) == HexText(b)
  }

  ghost predicate IsDidText(t: Text) {
    exists rest: Text :: t == U("did:key:") + rest
  }

  /** What a sender has to respect. */
  ghost predicate WellFormed(f: Frame) {
    match f
    case FOffer(o) =>
      && IsDidText(o.from) && PositiveDecimal(o.amount) && o.asset != [] && o.rails != []
      && o.claimByMs < o.refundAfterMs && Spells32(o.id)
    case FAccept(a) =>
      IsDidText(a.core.from) && Spells32(a.core.ref) && Spells32(a.core.statement) && Spells32(a.contract)
    case FLock(l) => Spells32(l.contract) && l.rail != [] && l.ref != []
    case FReveal(_, contract, secret) => Spells32(contract) && Spells32(secret)
    case FRefund(_, contract) => Spells32(contract)
    case FCancel(_, contract) => Spells32(contract)
    case FReceipt(r) => Spells32(r.contract)
  }

  // ---- the validator's tests in the sender's terms ----

  lemma {:induction false} DigitsAreDecimal(t: Text) returns (n: nat)
    requires t != [] && t[0] != 48 && forall i :: 0 <= i < |t| ==> IsDigit(t[i])
    ensures n > 0 && t == Decimal(n)
  {
    var k := |t| - 1;
    if k == 0 {
      n := t[0] - 48;
    } else {
      var m := DigitsAreDecimal(t[..k]);
      n := 10 * m + (t[k] - 48);
      assert n / 10 == m && n % 10 == t[k] - 48;
    }
  }

  lemma {:induction false} DecimalDigits(n: nat)
    ensures forall i :: 0 <= i < |Decimal(n)| ==> IsDigit(Decimal(n)[i])
  {
    if n >= 10 {
      DecimalDigits(n / 10);
    }
  }

  /** The amount pattern admits exactly the numerals of positive numbers. */
  lemma AmountIsDecimal(t: Text)
    ensures IsAmount(Str(t)) <==> PositiveDecimal(t)
  {
    hide Decimal;
    if IsAmount(Str(t)) {
      var n := DigitsAreDecimal(t);
    }
    if PositiveDecimal(t) {
      var n: nat :| n > 0 && t == Decimal(n);
      DecimalDigits(n);
      DecimalShape(n);
    }
  }

  /** isValidHex32 admits exactly the spellings of 32 bytes. */
  lemma {:induction false} HexIsSpelled(t: Text)
    ensures ValidHex32(t) <==> Spells32(t)
  {
    hide HexBody, BodyBytes;
    if ValidHex32(t) {
      var body := t[2..];
      BytesReads(body);
      assert Lower(t) == HexText(BodyBytes(body));
      assert |BodyBytes(body)| == 32;
    }
    if Spells32(t) {
      var b: Bytes :| |b| == 32 && Lower(t) == HexText(b);
      HexBodyReads(b);
      forall i | 2 <= i < 66 ensures IsHexDigit(t[i]) {
        assert HexText(b)[i] == HexBody(b)[i - 2];
        assert IsHexDigit(LowerUnit(t[i]));
      }
      assert t[0] == t[..2][0] && t[1] == t[..2][1];
    }
  }

  lemma DidIsPrefixed(t: Text)
    ensures IsDid(Str(t)) <==> IsDidText(t)
  {
    hide U;
    var prefix := U("did:key:");
    if IsDid(Str(t)) {
      assert t == prefix + t[|prefix|..];
    }
  }

  // ---- each kind of frame ----

  /** The seven type names differ. */
  lemma KindsDiffer()
    ensures U("offer") !in {U("accept"), U("lock"), U("reveal"), U("refund"), U("cancel"), U("receipt")}
    ensures U("accept") !in {U("lock"), U("reveal"), U("refund"), U("cancel"), U("receipt")}
    ensures U("lock") !in {U("reveal"), U("refund"), U("cancel"), U("receipt")}
    ensures U("reveal") !in {U("refund"), U("cancel"), U("receipt")}
    ensures U("refund") !in {U("cancel"), U("receipt")}
    ensures U("cancel") != U("receipt")
  {
    assert U("accept")[2] == 'c' as int && U("reveal")[2] == 'v' as int;
    assert U("refund")[2] == 'f' as int && U("cancel")[2] == 'n' as int;
  }

  lemma CarriesAt(m: Members, f: Frame, i: nat)
    requires Carries(m, f) && i < |FrameKeys(f)|
    ensures Get(m, Name(FrameKeys(f)[i])) == FrameValues(f)[i]
  {
  }

  /** Reading and validating depend on the members named in the frame's own case only. */
  lemma {:induction false} LockMembers(m: Members, l: Lock)
    requires PlainMembers(m) && Carries(m, FLock(l))
    ensures ReadMembers(m) == Some(FLock(l)) && (CheckFrame(m).None? <==> WellFormed(FLock(l)))
  {
    hide U, Name, Spells32, ValidHex32, CheckOffer, CheckOfferTimes, Carries;
    KindsDiffer();
    var f := FLock(l);
    CarriesAt(m, f, 0);
    CarriesAt(m, f, 1);
    CarriesAt(m, f, 2);
    CarriesAt(m, f, 3);
    CarriesAt(m, f, 4);
    HexIsSpelled(l.contract);
  }

  lemma {:induction false} AcceptMembers(m: Members, a: Accept)
    requires PlainMembers(m) && Carries(m, FAccept(a))
    ensures ReadMembers(m) == Some(FAccept(a)) && (CheckFrame(m).None? <==> WellFormed(FAccept(a)))
  {
    hide U, Name, Spells32, ValidHex32, CheckOffer, CheckOfferTimes, Carries, IsDid, IsDidText;
    KindsDiffer();
    var f := FAccept(a);
    CarriesAt(m, f, 0);
    CarriesAt(m, f, 1);
    CarriesAt(m, f, 2);
    CarriesAt(m, f, 3);
    CarriesAt(m, f, 4);
    CarriesAt(m, f, 5);
    CarriesAt(m, f, 6);
    DidIsPrefixed(a.core.from);
    HexIsSpelled(a.core.ref);
    HexIsSpelled(a.core.statement);
    HexIsSpelled(a.contract);
  }

  lemma {:induction false} RevealMembers(m: Members, f: Frame)
    requires PlainMembers(m) && Carries(m, f) && f.FReveal?
    ensures ReadMembers(m) == Some(f) && (CheckFrame(m).None? <==> WellFormed(f))
  {
    hide U, Name, Spells32, ValidHex32, CheckOffer, CheckOfferTimes, CheckAccept, CheckLock, CheckReceipt, Carries;
    KindsDiffer();
    CarriesAt(m, f, 0);
    CarriesAt(m, f, 1);
    CarriesAt(m, f, 2);
    CarriesAt(m, f, 3);
    HexIsSpelled(f.contract);
    HexIsSpelled(f.secret);
  }

  lemma {:induction false} ClosingMembers(m: Members, f: Frame)
    requires PlainMembers(m) && Carries(m, f) && (f.FRefund? || f.FCancel?)
    ensures ReadMembers(m) == Some(f) && (CheckFrame(m).None? <==> WellFormed(f))
  {
    hide U, Name, Spells32, ValidHex32, CheckOffer, CheckOfferTimes, CheckAccept, CheckLock, CheckReveal, CheckReceipt,
      Carries;
    KindsDiffer();
    CarriesAt(m, f, 0);
    CarriesAt(m, f, 1);
    CarriesAt(m, f, 2);
    HexIsSpelled(ContractOf(f));
  }

  lemma {:induction false} ReceiptMembers(m: Members, r: Receipt)
    requires PlainMembers(m) && Carries(m, FReceipt(r))
    ensures ReadMembers(m) == Some(FReceipt(r)) && (CheckFrame(m).None? <==> WellFormed(FReceipt(r)))
  {
    hide U, Name, Spells32, ValidHex32, CheckOffer, CheckOfferTimes, CheckAccept, CheckLock, CheckReveal, Carries;
    KindsDiffer();
    OutcomesDiffer();
    var f := FReceipt(r);
    CarriesAt(m, f, 0);
    CarriesAt(m, f, 1);
    CarriesAt(m, f, 2);
    CarriesAt(m, f, 3);
    HexIsSpelled(r.contract);
  }

  lemma OutcomesDiffer()
    ensures U("claimed") != U("refunded") && U("claimed") != U("cancelled") && U("refunded") != U("cancelled")
  {
    assert U("refunded")[0] == 'r' as int && U("cancelled")[0] == 'c' as int;
    assert |U("refunded")| == 8 && |U("cancelled")| == 9;
  }

  lemma {:induction false} OfferMembers(m: Members, o: Offer)
    requires PlainMembers(m) && Carries(m, FOffer(o))
    ensures ReadMembers(m) == Some(FOffer(o)) && (CheckFrame(m).None? <==> WellFormed(FOffer(o)))
  {
    hide ReadMembers, CheckFrame, Carries, WellFormed;
    OfferIsRead(m, o);
    OfferIsChecked(m, o);
  }

  lemma {:induction false} OfferIsRead(m: Members, o: Offer)
    requires PlainMembers(m) && Carries(m, FOffer(o))
    ensures ReadMembers(m) == Some(FOffer(o))
  {
    hide U, Name, Carries, TextItems, ItemTexts, RoleText, LockKindText, Get;
    CarriesOffer(m, o);
    OfferTexts(o.role, o.lock);
    RailsRead(o.rails);
  }

  lemma {:induction false} OfferIsChecked(m: Members, o: Offer)
    requires Carries(m, FOffer(o))
    ensures CheckFrame(m).None? <==> WellFormed(FOffer(o))
  {
    hide U, Name, Spells32, ValidHex32, Carries, IsDid, IsDidText, IsAmount, PositiveDecimal, CheckAccept, CheckLock,
      CheckReveal, CheckClosing, CheckReceipt, TextItems, RoleText, LockKindText, Get, IsRole, IsLockKind;
    CarriesOffer(m, o);
    OfferTexts(o.role, o.lock);
    RailsRead(o.rails);
    DidIsPrefixed(o.from);
    AmountIsDecimal(o.amount);
    HexIsSpelled(o.id);
  }

  ghost predicate HasOffer(m: Members, o: Offer) {
    && Get(m, Name(KType)) == Str(U("offer")) && Get(m, Name(KFrom)) == Str(o.from)
    && Get(m, Name(KRole)) == Str(RoleText(o.role)) && Get(m, Name(KAmount)) == Str(o.amount)
    && Get(m, Name(KAsset)) == Str(o.asset) && Get(m, Name(KLock)) == Str(LockKindText(o.lock))
    && Get(m, Name(KRails)) == Arr(TextItems(o.rails)) && Get(m, Name(KClaimByMs)) == Num(o.claimByMs)
    && Get(m, Name(KRefundAfterMs)) == Num(o.refundAfterMs) && Get(m, Name(KExpiresMs)) == Num(o.expiresMs)
    && Get(m, Name(KNonce)) == Str(o.nonce) && Get(m, Name(KPaymentKey)) == o.paymentKey
    && Get(m, Name(KJob)) == o.job && Get(m, Name(KId)) == Str(o.id)
  }

  lemma {:induction false} CarriesOffer(m: Members, o: Offer)
    ensures Carries(m, FOffer(o)) <==> HasOffer(m, o)
  {
    hide U, Name, RoleText, LockKindText, TextItems, Get, Carries, HasOffer;
    if Carries(m, FOffer(o)) {
      CarriedOffer(m, o);
    }
    if HasOffer(m, o) {
      OfferCarried(m, o);
    }
  }

  lemma {:induction false} CarriedOffer(m: Members, o: Offer)
    requires Carries(m, FOffer(o))
    ensures HasOffer(m, o)
  {
    hide U, Name, RoleText, LockKindText, TextItems, Get, Carries;
    var f := FOffer(o);
    CarriesAt(m, f, 0);
    CarriesAt(m, f, 1);
    CarriesAt(m, f, 2);
    CarriesAt(m, f, 3);
    CarriesAt(m, f, 4);
    CarriesAt(m, f, 5);
    CarriesAt(m, f, 6);
    CarriesAt(m, f, 7);
    CarriesAt(m, f, 8);
    CarriesAt(m, f, 9);
    CarriesAt(m, f, 10);
    CarriesAt(m, f, 11);
    CarriesAt(m, f, 12);
    CarriesAt(m, f, 13);
  }

  lemma {:induction false} OfferCarried(m: Members, o: Offer)
    requires HasOffer(m, o)
    ensures Carries(m, FOffer(o))
  {
    hide HasOffer, U, Name, RoleText, LockKindText, TextItems, Get;
    forall i | 0 <= i < 14 ensures Get(m, Name(FrameKeys(FOffer(o))[i])) == FrameValues(FOffer(o))[i] {
      if i < 7 {
        OfferFirstHalf(m, o, i);
      } else {
        OfferSecondHalf(m, o, i);
      }
    }
  }

  lemma {:induction false} OfferFirstHalf(m: Members, o: Offer, i: nat)
    requires HasOffer(m, o) && i < 7
    ensures Get(m, Name(FrameKeys(FOffer(o))[i])) == FrameValues(FOffer(o))[i]
  {
    hide U, Name, RoleText, LockKindText, TextItems, Get;
  }

  lemma {:induction false} OfferSecondHalf(m: Members, o: Offer, i: nat)
    requires HasOffer(m, o) && 7 <= i < 14
    ensures Get(m, Name(FrameKeys(FOffer(o))[i])) == FrameValues(FOffer(o))[i]
  {
    hide U, Name, RoleText, LockKindText, TextItems, Get;
  }

  lemma OfferTexts(role: Role, lock: LockKind)
    ensures IsRole(Str(RoleText(role))) && (role == Payer <==> RoleText(role) == U("payer"))
    ensures IsLockKind(Str(LockKindText(lock))) && (lock == HashLock <==> LockKindText(lock) == U("hash"))
  {
    hide U;
    if RoleText(role) == RoleText(Payer) {
      RoleTextInjective(role, Payer);
    }
    if LockKindText(lock) == LockKindText(HashLock) {
      LockKindTextInjective(lock, HashLock);
    }
  }

  lemma {:induction false} RailsRead(rails: seq<Text>)
    ensures ItemTexts(TextItems(rails)) == Some(rails)
    ensures TextItems(rails).Item? <==> rails != []
  {
    if rails != [] {
      RailsRead(rails[1..]);
      assert rails == [rails[0]] + rails[1..];
    }
  }

  lemma {:induction false} TextsWritten(items: Items)
    requires ItemTexts(items).Some?
    ensures TextItems(ItemTexts(items).value) == items
  {
    if items.Item? {
      TextsWritten(items.tail);
    }
  }

  /** Every member of a frame is read into its own field, and validation is what a sender has to respect. */
  lemma {:induction false} CarriedFrame(m: Members, f: Frame)
    requires PlainMembers(m) && Carries(m, f)
    ensures ReadMembers(m) == Some(f) && (CheckFrame(m).None? <==> WellFormed(f))
  {
    hide ReadMembers, CheckFrame, WellFormed, Carries;
    match f {
      case FOffer(o) => OfferMembers(m, o);
      case FAccept(a) => AcceptMembers(m, a);
      case FLock(l) => LockMembers(m, l);
      case FReveal(_, _, _) => RevealMembers(m, f);
      case FReceipt(r) => ReceiptMembers(m, r);
      case _ => ClosingMembers(m, f);
    }
  }

  // ---- no other frame is read ----

  lemma {:induction false} KindIsRead(m: Members, f: Frame)
    requires PlainMembers(m) && CheckFrame(m).None? && ReadMembers(m) == Some(f)
    ensures Get(m, Name(KType)) == FrameValues(f)[0]
  {
    hide U, Name, CheckOffer, CheckOfferTimes, CheckAccept, CheckLock, CheckReveal, CheckClosing, CheckReceipt,
      TextItems, ItemTexts, Get, RoleText, LockKindText;
    KindsDiffer();
  }

  lemma {:induction false} ReadLock(m: Members, l: Lock)
    requires PlainMembers(m) && CheckFrame(m).None? && ReadMembers(m) == Some(FLock(l))
    ensures Carries(m, FLock(l))
  {
    hide U, Name, ValidHex32, CheckOffer, CheckOfferTimes, CheckAccept, CheckReveal, CheckClosing, CheckReceipt,
      TextItems, ItemTexts, Get;
    KindsDiffer();
    KindIsRead(m, FLock(l));
    assert Get(m, Name(KFrom)) == Str(l.from) && Get(m, Name(KContract)) == Str(l.contract);
    assert Get(m, Name(KRail)) == Str(l.rail) && Get(m, Name(KRef)) == Str(l.ref);
  }

  lemma {:induction false} ReadAccept(m: Members, a: Accept)
    requires PlainMembers(m) && CheckFrame(m).None? && ReadMembers(m) == Some(FAccept(a))
    ensures Carries(m, FAccept(a))
  {
    hide U, Name, ValidHex32, CheckOffer, CheckOfferTimes, CheckLock, CheckReveal, CheckClosing, CheckReceipt,
      TextItems, ItemTexts, Get, StartsWith;
    KindsDiffer();
    KindIsRead(m, FAccept(a));
    assert Get(m, Name(KFrom)) == Str(a.core.from) && Get(m, Name(KContract)) == Str(a.contract);
    assert Get(m, Name(KRef)) == Str(a.core.ref) && Get(m, Name(KStatement)) == Str(a.core.statement);
    assert Get(m, Name(KNonce)) == Str(a.core.nonce) && Get(m, Name(KPaymentKey)) == a.core.paymentKey;
  }

  lemma {:induction false} ReadReveal(m: Members, f: Frame)
    requires PlainMembers(m) && CheckFrame(m).None? && ReadMembers(m) == Some(f) && f.FReveal?
    ensures Carries(m, f)
  {
    hide U, Name, ValidHex32, CheckOffer, CheckOfferTimes, CheckAccept, CheckLock, CheckReceipt, TextItems, ItemTexts,
      Get;
    KindsDiffer();
    KindIsRead(m, f);
    assert Get(m, Name(KFrom)) == Str(f.from) && Get(m, Name(KContract)) == Str(f.contract);
    assert Get(m, Name(KSecret)) == Str(f.secret);
  }

  lemma {:induction false} ReadClosing(m: Members, f: Frame)
    requires PlainMembers(m) && CheckFrame(m).None? && ReadMembers(m) == Some(f) && (f.FRefund? || f.FCancel?)
    ensures Carries(m, f)
  {
    hide U, Name, ValidHex32, CheckOffer, CheckOfferTimes, CheckAccept, CheckLock, CheckReveal, CheckReceipt, TextItems,
      ItemTexts, Get;
    KindsDiffer();
    KindIsRead(m, f);
    assert Get(m, Name(KFrom)) == Str(Sender(f)) && Get(m, Name(KContract)) == Str(ContractOf(f));
  }

  /** What validation leaves of a receipt's members. */
  lemma {:induction false} CheckedReceipt(m: Members)
    requires CheckFrame(m).None? && Get(m, Name(KType)) == Str(U("receipt"))
    ensures Get(m, Name(KFrom)).Str? && Get(m, Name(KContract)).Str? && IsOutcome(Get(m, Name(KOutcome)))
  {
    hide U, Name, ValidHex32, CheckOffer, CheckOfferTimes, CheckAccept, CheckLock, CheckReveal, CheckClosing, Get;
    KindsDiffer();
  }

  lemma {:induction false} ReadReceipt(m: Members, r: Receipt)
    requires PlainMembers(m) && CheckFrame(m).None? && ReadMembers(m) == Some(FReceipt(r))
    ensures Carries(m, FReceipt(r))
  {
    hide U, Name, CheckFrame, TextItems, ItemTexts, Get;
    KindIsRead(m, FReceipt(r));
    CheckedReceipt(m);
    KindsDiffer();
    OutcomesDiffer();
    assert Get(m, Name(KOutcome)) == Str(OutcomeText(r.outcome));
  }

  /** What validation leaves of an offer's members. */
  lemma {:induction false} CheckedOffer(m: Members)
    requires CheckFrame(m).None? && Get(m, Name(KType)) == Str(U("offer"))
    ensures Get(m, Name(KFrom)).Str? && IsRole(Get(m, Name(KRole))) && Get(m, Name(KAmount)).Str?
    ensures Get(m, Name(KAsset)).Str? && IsLockKind(Get(m, Name(KLock))) && Get(m, Name(KRails)).Arr?
    ensures Get(m, Name(KClaimByMs)).Num? && Get(m, Name(KRefundAfterMs)).Num? && Get(m, Name(KExpiresMs)).Num?
    ensures Get(m, Name(KNonce)).Str? && Get(m, Name(KId)).Str?
  {
    hide U, Name, ValidHex32, CheckAccept, CheckLock, CheckReveal, CheckClosing, CheckReceipt, Get, StartsWith;
    KindsDiffer();
  }

  lemma {:induction false} ReadOffer(m: Members, o: Offer)
    requires PlainMembers(m) && CheckFrame(m).None? && ReadMembers(m) == Some(FOffer(o))
    ensures Carries(m, FOffer(o))
  {
    hide U, Name, CheckFrame, TextItems, ItemTexts, Get, Carries;
    KindIsRead(m, FOffer(o));
    CheckedOffer(m);
    TextsWritten(Get(m, Name(KRails)).items);
    CarriesOffer(m, o);
    KindsDiffer();
  }

  lemma {:induction false} ReadIsCarried(m: Members, f: Frame)
    requires PlainMembers(m) && CheckFrame(m).None? && ReadMembers(m) == Some(f)
    ensures Carries(m, f)
  {
    hide ReadMembers, CheckFrame, Carries;
    match f {
      case FOffer(o) => ReadOffer(m, o);
      case FAccept(a) => ReadAccept(m, a);
      case FLock(l) => ReadLock(m, l);
      case FReveal(_, _, _) => ReadReveal(m, f);
      case FReceipt(r) => ReadReceipt(m, r);
      case _ => ReadClosing(m, f);
    }
  }

  /** What validation admits of the members of a line, and how the reader types them. */
  lemma {:induction false} ReadExactly(m: Members, f: Frame)
    requires PlainMembers(m)
    ensures CheckFrame(m).None? && ReadMembers(m) == Some(f) <==> Carries(m, f) && WellFormed(f)
  {
    hide ReadMembers, CheckFrame, Carries, WellFormed;
    if CheckFrame(m).None? && ReadMembers(m) == Some(f) {
      ReadIsCarried(m, f);
    }
    if Carries(m, f) {
      CarriedFrame(m, f);
    }
  }

  /** A line is read as a frame exactly when the frame respects the rules and the line's members are the frame's. */
  lemma {:induction false} FrameIsRead(text: Text, f: Frame)
    ensures ReadFrame(text) == Good(f)
      <==>
      && 6 <= |text| <= 4096 && text[..6] == U("tclk1 ")
      && var parsed := ParseJson(text[6..]);
         parsed.Some? && parsed.value.Obj? && Carries(parsed.value.members, f) && WellFormed(f)
  {
    hide CheckFrame, ReadMembers, ParseValue, Carries, WellFormed;
    assert U("tclk1 ") == PREFIX;
    if IsTclkLine(text) {
      ParsedIsPlain(text[|PREFIX|..]);
      var parsed := ParseJson(text[|PREFIX|..]);
      if parsed.Some? && parsed.value.Obj? {
        ReadExactly(parsed.value.members, f);
      }
    }
  }

  // ---- the round trip ----

  function CanonJs(v: JsValue): JsValue {
    CanonTwice(v);
    Canon(v)
  }

  function CanonOffer(o: Offer): Offer {
    o.(paymentKey := CanonJs(o.paymentKey), job := CanonJs(o.job))
  }

  /** The frame with its free-form members in canonical form. */
  function CanonFrame(f: Frame): Frame {
    match f
    case FOffer(o) => FOffer(CanonOffer(o))
    case FAccept(a) => FAccept(a.(core := a.core.(paymentKey := CanonJs(a.core.paymentKey))))
    case _ => f
  }

  lemma {:induction false} FrameValuesPlain(f: Frame)
    ensures forall i :: 0 <= i < |FrameValues(f)| ==> Plain(FrameValues(f)[i])
  {
    hide U;
    if f.FOffer? {
      TextItemsPlain(f.o.rails);
    }
  }

  /** What a sender encodes carries the frame, with whatever members it adds. */
  lemma {:induction false} SentCarries(f: Frame, keys: seq<Key>, values: seq<Json>)
    requires |keys| == |values| && Distinct(FrameKeys(f) + keys)
    requires forall i :: 0 <= i < |values| ==> Plain(values[i])
    ensures Plain(SentJson(f, keys, values)) && Carries(SentJson(f, keys, values).members, f)
  {
    hide FrameKeys, FrameValues, Build, Plain;
    FrameValuesPlain(f);
    var allKeys, allValues := FrameKeys(f) + keys, FrameValues(f) + values;
    BuildPlain(allKeys, allValues);
    forall i | 0 <= i < |FrameKeys(f)|
      ensures Get(Build(allKeys, allValues), Name(FrameKeys(f)[i])) == FrameValues(f)[i]
    {
      BuildGet(allKeys, allValues, i);
    }
  }

  /** The canonical form carries the frame up to free-form members. */
  lemma {:induction false} CanonCarries(m: Members, f: Frame)
    requires DistinctKeys(m) && Carries(m, f)
    ensures Carries(CanonMembers(Tidy(m)), CanonFrame(f))
  {
    hide FrameKeys, FrameValues, CanonMembers, Tidy, CanonFrame;
    CanonValues(f);
    var keys := FrameKeys(f);
    forall i | 0 <= i < |keys|
      ensures Get(CanonMembers(Tidy(m)), Name(keys[i])) == FrameValues(CanonFrame(f))[i]
    {
      TidyMembers(m, Name(keys[i]));
    }
  }

  lemma PlainObject(m: Members)
    requires Plain(Obj(m))
    ensures DistinctKeys(m) && PlainMembers(m)
  {
  }

  lemma {:induction false} CanonValues(f: Frame)
    ensures FrameKeys(CanonFrame(f)) == FrameKeys(f)
    ensures forall i :: 0 <= i < |FrameValues(f)| ==> FrameValues(CanonFrame(f))[i] == Canon(FrameValues(f)[i])
  {
    hide U;
    if f.FOffer? {
      TextItemsCanon(f.o.rails);
    }
  }

  lemma {:induction false} TextItemsCanon(ts: seq<Text>)
    ensures CanonItems(TextItems(ts)) == TextItems(ts)
  {
    if ts != [] {
      TextItemsCanon(ts[1..]);
    }
  }

  /** A value is sent, as prefixed ASCII text, exactly if it is printable and the line is at most 4096 characters. */
  lemma {:induction false} EncodesExactly(v: Json, line: Text)
    ensures EncodeFrame(v) == Good(line)
      <==>
      && Printable(v) && |line| <= 4096
      && var json := CanonicalJson(v); json.Some? && line == U("tclk1 ") + ToAscii(json.value)
  {
    hide CanonicalJson, ToAscii, Printable;
    assert U("tclk1 ") == PREFIX;
    PrintsIffPrintable(v);
  }

  /**
   * A frame that was sent, in any key order and with any further members, is read as itself up to canonical form of
   * its free-form members, and as nothing else, if and only if its sender respected the rules.
   */
  lemma {:induction false} FrameTravels(v: Json, f: Frame, g: Frame)
    requires Plain(v) && v.Obj? && Carries(v.members, f) && EncodeFrame(v).Good?
    ensures ReadFrame(EncodeFrame(v).value) == Good(g) <==> WellFormed(f) && g == CanonFrame(f)
  {
    hide EncodeFrame, DecodeFrame, CheckFrame, ReadMembers, Carries, WellFormed, CanonFrame, Tidy, CanonMembers, Plain;
    var m := v.members;
    PlainObject(m);
    FrameRoundTrip(v);
    CarriedFrame(m, f);
    CanonCarries(m, f);
    DecodedIsPlain(EncodeFrame(v).value);
    if CheckFrame(m).None? {
      CarriedFrame(CanonMembers(Tidy(m)), CanonFrame(f));
    }
  }
}
