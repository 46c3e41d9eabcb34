/** encodeTclkFrame and decodeTclkFrame: the wire line of a frame and its case-by-case validation. */
module Frames {
  import opened Options
  import opened Text
  import opened Json
  import opened Printer
  import opened Parser
  import opened RoundTrip
  import opened Keys

  const MAX_FRAME_CHARS := 4096

  const PREFIX: Text := [116, 99, 108, 107, 49, 32] // "tclk1 "

  datatype FrameError =
    | UnsupportedValue | TooLong | NotAFrame | InvalidJson | NotAnObject | MissingType | UnsupportedType
    | InvalidField(field: Key)

  datatype FrameResult<T> = Good(value: T) | Bad(error: FrameError)

  // ---- tests on one field; an absent field reads Undef ----

  predicate StartsWith(t: Text, prefix: Text) {
    |prefix| <= |t| && t[..|prefix|] == prefix
  }

  predicate IsText(v: Json) { v.Str? }

  predicate IsNonEmptyText(v: Json) { v.Str? && v.s != [] }

  predicate IsDid(v: Json) { v.Str? && StartsWith(v.s, U("did:key:")) }

  predicate IsRole(v: Json) { v.Str? && (v.s == U("payer") || v.s == U("payee")) }

  predicate IsLockKind(v: Json) { v.Str? && (v.s == U("hash") || v.s == U("point")) }

  predicate IsOutcome(v: Json) { v.Str? && (v.s == U("claimed") || v.s == U("refunded") || v.s == U("cancelled")) }

  predicate IsHexDigit(u: unit16) { 48 <= u <= 57 || 97 <= u <= 102 || 65 <= u <= 70 }

  /** isValidHex32. */
  predicate ValidHex32(t: Text) {
    |t| == 66 && t[0] == 48 && t[1] == 120 && forall i :: 2 <= i < 66 ==> IsHexDigit(t[i])
  }

  predicate IsHex32(v: Json) { v.Str? && ValidHex32(v.s) }

  predicate IsAmount(v: Json) {
    v.Str? && v.s != [] && v.s[0] != 48 && forall i :: 0 <= i < |v.s| ==> IsDigit(v.s[i])
  }

  predicate IsNumber(v: Json) { v.Num? }

  predicate IsNonEmptyArray(v: Json) { v.Arr? && v.items.Item? }

  /** One test of a frame type; the first that fails names the error. */
  function Test(ok: bool, field: Key, next: Option<FrameError>): Option<FrameError> {
    if ok then next else Some(InvalidField(field))
  }

  /** The first six tests of an offer, and then the others. */
  function CheckOffer(from: Json, role: Json, amount: Json, asset: Json, lock: Json, rails: Json,
                      others: Option<FrameError>): Option<FrameError> {
    Test(IsDid(from), KFrom,
    Test(IsRole(role), KRole,
    Test(IsAmount(amount), KAmount,
    Test(IsNonEmptyText(asset), KAsset,
    Test(IsLockKind(lock), KLock,
    Test(IsNonEmptyArray(rails), KRails, others))))))
  }

  function CheckOfferTimes(claimBy: Json, refundAfter: Json, expires: Json, nonce: Json, id: Json): Option<FrameError> {
    Test(IsNumber(claimBy) && IsNumber(refundAfter), KClaimByMs,
    Test(IsNumber(claimBy) && IsNumber(refundAfter) && claimBy.n < refundAfter.n, KClaimByMs,
    Test(IsNumber(expires), KExpiresMs,
    Test(IsText(nonce), KNonce,
    Test(IsHex32(id), KId, None)))))
  }

  function CheckAccept(from: Json, ref: Json, statement: Json, contract: Json, nonce: Json): Option<FrameError> {
    Test(IsDid(from), KFrom,
    Test(IsHex32(ref), KRef,
    Test(IsHex32(statement), KStatement,
    Test(IsHex32(contract), KContract,
    Test(IsText(nonce), KNonce, None)))))
  }

  function CheckLock(from: Json, contract: Json, rail: Json, ref: Json): Option<FrameError> {
    Test(IsText(from), KFrom,
    Test(IsHex32(contract), KContract,
    Test(IsNonEmptyText(rail), KRail,
    Test(IsNonEmptyText(ref), KRef, None))))
  }

  function CheckReveal(from: Json, contract: Json, secret: Json): Option<FrameError> {
    Test(IsText(from), KFrom, Test(IsHex32(contract), KContract, Test(IsHex32(secret), KSecret, None)))
  }

  function CheckClosing(from: Json, contract: Json): Option<FrameError> {
    Test(IsText(from), KFrom, Test(IsHex32(contract), KContract, None))
  }

  function CheckReceipt(from: Json, contract: Json, outcome: Json): Option<FrameError> {
    Test(IsText(from), KFrom,
    Test(IsHex32(contract), KContract,
    Test(IsOutcome(outcome), KOutcome, None)))
  }

  /** All that the tests can see of a value: a text or a number, or only that it is an array with items. */
  function Glimpse(v: Json): Json {
    match v
    case Str(_) => v
    case Num(_) => v
    case Arr(items) => if items.Item? then Arr(Item(Null, NoItems)) else Null
    case _ => Null
  }

  function Field(m: Members, k: Key): Json {
    Glimpse(Get(m, Name(k)))
  }

  /** The validation switch of decodeTclkFrame. */
  function CheckFrame(m: Members): Option<FrameError> {
    var from, contract := Field(m, KFrom), Field(m, KContract);
    var kind := Field(m, KType);
    if !IsText(kind) then Some(MissingType)
    else if kind.s == U("offer") then
      CheckOffer(from, Field(m, KRole), Field(m, KAmount), Field(m, KAsset), Field(m, KLock), Field(m, KRails),
                 CheckOfferTimes(Field(m, KClaimByMs), Field(m, KRefundAfterMs), Field(m, KExpiresMs),
                                 Field(m, KNonce), Field(m, KId)))
    else if kind.s == U("accept") then
      CheckAccept(from, Field(m, KRef), Field(m, KStatement), contract, Field(m, KNonce))
    else if kind.s == U("lock") then CheckLock(from, contract, Field(m, KRail), Field(m, KRef))
    else if kind.s == U("reveal") then CheckReveal(from, contract, Field(m, KSecret))
    else if kind.s == U("refund") || kind.s == U("cancel") then CheckClosing(from, contract)
    else if kind.s == U("receipt") then CheckReceipt(from, contract, Field(m, KOutcome))
    else Some(UnsupportedType)
  }

  predicate IsTclkLine(text: Text) {
    StartsWith(text, PREFIX)
  }

  function EncodeFrame(v: Json): FrameResult<Text> {
    var json := CanonicalJson(v);
    if json.None? then Bad(UnsupportedValue)
    else
      var line := PREFIX + ToAscii(json.value);
      if |line| > MAX_FRAME_CHARS then Bad(TooLong) else Good(line)
  }

  function DecodeFrame(text: Text): FrameResult<Members> {
    if !IsTclkLine(text) then Bad(NotAFrame)
    else if |text| > MAX_FRAME_CHARS then Bad(TooLong)
    else
      var parsed := ParseJson(text[|PREFIX|..]);
      if parsed.None? then Bad(InvalidJson)
      else if !parsed.value.Obj? then Bad(NotAnObject)
      else
        var m := parsed.value.members;
        var problem := CheckFrame(m);
        if problem.Some? then Bad(problem.value) else Good(m)
  }

  // ---- validation sees through canonicalisation ----

  lemma GlimpseSeesThrough(v: Json)
    ensures Glimpse(Canon(v)) == Glimpse(v)
  {
    hide Tidy, CanonMembers;
  }

  /** The validator decides alike on a frame and on its canonical form. */
  lemma {:induction false} CheckSeesThrough(m: Members)
    requires DistinctKeys(m)
    ensures CheckFrame(CanonMembers(Tidy(m))) == CheckFrame(m)
  {
    hide CheckOffer, CheckOfferTimes, CheckAccept, CheckLock, CheckReveal, CheckClosing, CheckReceipt, Canon,
      CanonMembers, Tidy, U, Name, Glimpse;
    var c := CanonMembers(Tidy(m));
    forall k: Key ensures Field(c, k) == Field(m, k) {
      TidyMembers(m, Name(k));
      GlimpseSeesThrough(Get(m, Name(k)));
    }
  }

  /**
   * Decoding an encoded line: any printable value of at most 4096 characters decodes to exactly what validation says
   * of it, and a well-formed frame comes back as its canonical self.
   */
  lemma {:induction false} FrameRoundTrip(v: Json)
    requires Plain(v) && EncodeFrame(v).Good?
    ensures DecodeFrame(EncodeFrame(v).value) ==
      if !v.Obj? then Bad(NotAnObject)
      else if CheckFrame(v.members).Some? then Bad(CheckFrame(v.members).value)
      else Good(CanonMembers(Tidy(v.members)))
  {
    hide CanonicalJson, CheckFrame, ParseJson, ToAscii, Tidy, CanonMembers;
    var json := ToAscii(CanonicalJson(v).value);
    assert (PREFIX + json)[|PREFIX|..] == json && (PREFIX + json)[..|PREFIX|] == PREFIX;
    CanonicalRoundTrip(v);
    if v.Obj? {
      CheckSeesThrough(v.members);
    }
  }

  /** One line, one frame: lines of printable values coincide exactly when the values do. */
  lemma LinesUnambiguous(v: Json, w: Json)
    requires Plain(v) && Plain(w) && EncodeFrame(v).Good? && EncodeFrame(w).Good?
    ensures EncodeFrame(v) == EncodeFrame(w) <==> Same(v, w)
  {
    hide CanonicalJson, ToAscii, Same;
    CanonicalUnambiguous(v, w);
    var a, b := ToAscii(CanonicalJson(v).value), ToAscii(CanonicalJson(w).value);
    assert (PREFIX + a)[|PREFIX|..] == a && (PREFIX + b)[|PREFIX|..] == b;
  }

  /** What goes out is plain ASCII, so the stored bytes are the signed characters. */
  lemma LineIsAscii(v: Json)
    requires EncodeFrame(v).Good?
    ensures var line := EncodeFrame(v).value;
      forall i :: 0 <= i < |line| ==> line[i] < 0x80
  {
    hide CanonicalJson, ToAscii;
    ToAsciiIsAscii(CanonicalJson(v).value);
  }
}
