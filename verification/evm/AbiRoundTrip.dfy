/** Parsing inverts the ABI encoding of the escrow's events, log by log and over whole receipts. */
module AbiRoundTrip {
  import opened Options
  import opened PyHex
  import opened Receipts
  import opened ReceiptLaws

  // ---- the encoding ----

  /** The fields of a Locked event: lower-case digits of 20 and 32 bytes, and two numbers. */
  datatype Lock = Lock(contract: string, cid: string, payer: string, payee: string, token: string,
                       amount: nat, hashlock: string, refundTimestamp: nat)

  predicate Digits(s: string, n: nat) {
    |s| == n && AllLow(s)
  }

  predicate LockFits(f: Lock) {
    && Digits(f.contract, 40) && Digits(f.cid, 64) && Digits(f.payer, 40) && Digits(f.payee, 40)
    && Digits(f.token, 40) && Digits(f.hashlock, 64) && f.amount < Pow16(64) && f.refundTimestamp < Pow16(64)
  }

  function LockData(f: Lock): (s: string)
    ensures |s| >= 24
  {
    PaddingIsLow();
    PADDING + f.token + HexText(f.amount, 64) + f.hashlock + HexText(f.refundTimestamp, 64)
  }

  /** The log a Locked event leaves, under any text as its id: three indexed fields as topics, four words of data. */
  function EncodeLockedAs(f: Lock, id: Option<string>): Log {
    Log(Some("0x" + f.contract),
        [Some(Topic0(KLocked)), id, Some("0x" + PADDING + f.payer), Some("0x" + PADDING + f.payee)],
        Text("0x" + LockData(f)))
  }

  function EncodeLocked(f: Lock): Log {
    EncodeLockedAs(f, Some("0x" + f.cid))
  }

  function EncodeClaimed(contract: string, cid: string, secret: string): Log {
    Log(Some("0x" + contract), [Some(Topic0(KClaimed)), Some("0x" + cid)], Text("0x" + secret))
  }

  function EncodeRefunded(contract: string, cid: string): Log {
    Log(Some("0x" + contract), [Some(Topic0(KRefunded)), Some("0x" + cid)], Text("0x"))
  }

  function EncodeTransfer(token: string, payer: string, payee: string, amount: nat): Log {
    Log(Some("0x" + token), [Some(Topic0(KTransfer)), Some("0x" + PADDING + payer), Some("0x" + PADDING + payee)],
        Text("0x" + HexText(amount, 64)))
  }

  /** The event with the fields of a lock. */
  function LockedEvent(f: Lock, cid: Option<string>, block: int): Event {
    Locked(cid, "0x" + f.contract, "0x" + f.payer, "0x" + f.payee, Some("0x" + f.token), f.amount,
           Some("0x" + f.hashlock), f.refundTimestamp, block, "0x" + f.token != ZERO_ADDRESS)
  }

  /** The address filter, if any, is for this contract. */
  predicate Admits(htlc: Option<string>, contract: string) {
    htlc.None? || htlc == Some("0x" + contract)
  }

  lemma PrefixedIsNormal(body: string)
    requires AllLow(body) && |body| % 2 == 0 && |body| >= 2
    ensures NormalizeHex(Some("0x" + body)) == Some("0x" + body)
  {
    hide NormalizeHex;
    assert ("0x" + body)[2..] == body;
    NormalizeCanonical("0x" + body);
  }

  lemma {:induction false} PaddedAddress(a: string)
    requires Digits(a, 40)
    ensures IndexedAddress(Some("0x" + PADDING + a)) == Some("0x" + a)
    ensures NormalizeAddress(Some("0x" + a)) == Some("0x" + a)
  {
    hide NormalizeHex;
    PrefixedIsNormal(a);
    PaddingIsLow();
    PrefixedIsNormal(PADDING + a);
    assert "0x" + PADDING + a == "0x" + (PADDING + a);
    var n := "0x" + PADDING + a;
    assert n[2..26] == PADDING && n[26..] == a;
  }

  lemma PaddingIsLow()
    ensures |PADDING| == 24 && AllLow(PADDING)
  {
  }

  /** A topic is recognised as its own kind and no other. */
  lemma TopicsDiffer(k: Kind, other: Kind)
    ensures IsTopic(Some(Topic0(k)), other) <==> k == other
  {
    LowerPrefixed(Lower(Signature(k)));
    LowerTwice(Signature(k));
    FirstDigit(k);
    FirstDigit(other);
  }

  function Initial(k: Kind): char {
    match k
    case KLocked => '1'
    case KClaimed => '3'
    case KRefunded => 'f'
    case KTransfer => 'd'
  }

  lemma FirstDigit(k: Kind)
    ensures |Topic0(k)| == 66 && Topic0(k)[2] == Initial(k)
  {
    match k
    case KLocked => case KClaimed => case KRefunded => case KTransfer =>
  }

  lemma DataOfLow(body: string)
    requires AllLow(body)
    ensures DataHex(Text("0x" + body)) == body
  {
    hide Lower;
    LowStaysLow(body);
    LowerPrefixed(body);
  }

  lemma LockDataIsLow(f: Lock)
    requires LockFits(f)
    ensures AllLow(LockData(f)) && |LockData(f)| == 256
    ensures LockData(f)[24..64] == f.token && LockData(f)[64..128] == HexText(f.amount, 64)
    ensures LockData(f)[128..192] == f.hashlock && LockData(f)[192..256] == HexText(f.refundTimestamp, 64)
  {
    hide HexText, AllLow, HexVal, Pow16;
    HexTextReads(f.amount, 64);
    HexTextReads(f.refundTimestamp, 64);
    PaddingIsLow();
    JoinedWords(PADDING, f.token, HexText(f.amount, 64), f.hashlock, HexText(f.refundTimestamp, 64));
  }

  lemma {:induction false} JoinedWords(p: string, a: string, b: string, c: string, d: string)
    requires Digits(p, 24) && Digits(a, 40) && Digits(b, 64) && Digits(c, 64) && Digits(d, 64)
    ensures var s := p + a + b + c + d;
      && Digits(s, 256) && s[24..64] == a && s[64..128] == b && s[128..192] == c && s[192..256] == d
  {
    LowConcat(p, a);
    LowConcat(p + a, b);
    LowConcat(p + a + b, c);
    LowConcat(p + a + b + c, d);
    assert p + a + b + c + d == p + (a + (b + (c + d)));
  }

  lemma LowConcat(a: string, b: string)
    requires AllLow(a) && AllLow(b)
    ensures AllLow(a + b)
  {
  }

  lemma NumberReads(n: nat)
    requires n < Pow16(64)
    ensures HexNumber(HexText(n, 64)) == Some(n)
  {
    hide HexText;
    HexTextReads(n, 64);
  }

  /** Reading inverts encoding: a Locked log reads as its own fields, and needs its transfer unless it locks ether. */
  lemma {:induction false} LockedReads(rc: Receipt, htlc: Option<string>, f: Lock, id: Option<string>, block: int)
    requires LockFits(f) && RawNumber(rc.block) == Some(block) && Admits(htlc, f.contract)
    ensures ReadLog(rc, htlc, EncodeLockedAs(f, id)) ==
      if "0x" + f.token != ZERO_ADDRESS
         && !Records(rc.logs, Transfer("0x" + f.token, "0x" + f.payer, "0x" + f.contract, f.amount)) then Raise
      else Found(LockedEvent(f, NormalizeHex(id), block))
  {
    hide NormalizeHex, NormalizeAddress, Records, DataHex, RawNumber, IsTopic, Topic0, LockData, AllLow, ReadLocked,
      LockedEvent;
    TopicsDiffer(KLocked, KLocked);
    LockDataIsLow(f);
    DataOfLow(LockData(f));
    PaddedAddress(f.contract);
    LockedDataReads(rc.logs, EncodeLockedAs(f, id).topics, f, block);
  }

  lemma {:induction false} LockedDataReads(logs: seq<Log>, topics: seq<Option<string>>, f: Lock, block: int)
    requires LockFits(f) && |topics| == 4
    requires topics[2] == Some("0x" + PADDING + f.payer) && topics[3] == Some("0x" + PADDING + f.payee)
    ensures ReadLocked(logs, topics, LockData(f), "0x" + f.contract, block) ==
      if "0x" + f.token != ZERO_ADDRESS
         && !Records(logs, Transfer("0x" + f.token, "0x" + f.payer, "0x" + f.contract, f.amount)) then Raise
      else Found(LockedEvent(f, NormalizeHex(topics[1]), block))
  {
    hide NormalizeHex, NormalizeAddress, IndexedAddress, HexNumber, Records, HexText, LockData, AllLow, Pow16;
    LockDataIsLow(f);
    PaddedAddress(f.payer);
    PaddedAddress(f.payee);
    PaddedAddress(f.token);
    PrefixedIsNormal(f.hashlock);
    NumberReads(f.amount);
    NumberReads(f.refundTimestamp);
  }

  lemma {:induction false} ClaimedReads(rc: Receipt, htlc: Option<string>, contract: string, cid: string,
      secret: string, block: int)
    requires Digits(contract, 40) && Digits(cid, 64) && Digits(secret, 64)
    requires RawNumber(rc.block) == Some(block) && Admits(htlc, contract)
    ensures ReadLog(rc, htlc, EncodeClaimed(contract, cid, secret))
      == Found(Claimed(Some("0x" + cid), "0x" + contract, Some("0x" + secret), block))
  {
    hide NormalizeHex, NormalizeAddress, DataHex, RawNumber, IsTopic, Topic0, AllLow;
    TopicsDiffer(KClaimed, KLocked);
    TopicsDiffer(KClaimed, KClaimed);
    DataOfLow(secret);
    PaddedAddress(contract);
    PrefixedIsNormal(cid);
    PrefixedIsNormal(secret);
    assert secret[..64] == secret;
  }

  lemma {:induction false} RefundedReads(rc: Receipt, htlc: Option<string>, contract: string, cid: string, block: int)
    requires Digits(contract, 40) && Digits(cid, 64) && RawNumber(rc.block) == Some(block) && Admits(htlc, contract)
    ensures ReadLog(rc, htlc, EncodeRefunded(contract, cid))
      == Found(Refunded(Some("0x" + cid), "0x" + contract, block))
  {
    hide NormalizeHex, NormalizeAddress, DataHex, RawNumber, IsTopic, Topic0, AllLow;
    TopicsDiffer(KRefunded, KLocked);
    TopicsDiffer(KRefunded, KClaimed);
    TopicsDiffer(KRefunded, KRefunded);
    PaddedAddress(contract);
    PrefixedIsNormal(cid);
  }

  /** The log of a token transfer reads as its token, sender, receiver and amount. */
  lemma {:induction false} TransferReads(token: string, payer: string, payee: string, amount: nat)
    requires Digits(token, 40) && Digits(payer, 40) && Digits(payee, 40) && amount < Pow16(64)
    ensures ReadTransfer(EncodeTransfer(token, payer, payee, amount))
      == Some(Transfer("0x" + token, "0x" + payer, "0x" + payee, amount))
  {
    hide NormalizeHex, NormalizeAddress, IndexedAddress, IsTopic, Topic0, HexText, AllLow, Pow16, HexNumber, Strip,
      TransferAmount;
    TopicsDiffer(KTransfer, KTransfer);
    PaddedAddress(token);
    PaddedAddress(payer);
    PaddedAddress(payee);
    AmountReads(amount);
  }

  lemma {:induction false} AmountReads(amount: nat)
    requires amount < Pow16(64)
    ensures TransferAmount(Text("0x" + HexText(amount, 64))) == Some(amount)
  {
    hide HexText, Pow16, HexNumber, Strip;
    HexTextReads(amount, 64);
    NumberReads(amount);
    var s := "0x" + HexText(amount, 64);
    assert IsLowHex(HexText(amount, 64)[63]);
    NothingToStrip(s);
    assert s[2..] == HexText(amount, 64);
  }

  /** A transfer that is read stands in its log: the emitting token, then sender and receiver as padded topics. */
  lemma {:induction false} TransferWasLogged(log: Log, t: Transfer)
    requires ReadTransfer(log) == Some(t)
    ensures log.Log? && |log.topics| >= 3 && IsTopic(log.topics[0], KTransfer)
    ensures NormalizeAddress(log.address) == Some(t.token) && |t.payer| == |t.payee| == 42
    ensures NormalizeHex(log.topics[1]) == Some("0x" + PADDING + t.payer[2..])
    ensures NormalizeHex(log.topics[2]) == Some("0x" + PADDING + t.payee[2..])
    ensures log.data.Text? && var digits := Unprefixed(Strip(log.data.s));
      if digits == "" then t.amount == 0
      else t.amount < Pow16(|digits|) && Lower(digits) == HexText(t.amount, |digits|)
  {
    hide NormalizeHex, NormalizeAddress, IndexedAddress, IsTopic, HexText, Pow16, HexNumber, Strip, Unprefixed, Lower;
    IndexedIsPadded(log.topics[1]);
    IndexedIsPadded(log.topics[2]);
    var digits := Unprefixed(Strip(log.data.s));
    if digits != "" {
      HexNumberExactly(digits, t.amount);
    }
  }

  // ---- whole receipts ----

  /** What is expected of a receipt: each of address, contract id and kind may be left open. */
  datatype Expectation = Expectation(htlc: Option<string>, cid: Option<string>, kind: Option<string>)

  /**
   * The receipt reports success and is of the expected contract where it says so, and all its logs but the i-th are
   * read without an exception and do not pass.
   */
  ghost predicate AllButPass(rc: Receipt, want: Expectation, i: nat) {
    var htlc, cid := NormalizeAddress(want.htlc), NormalizeHex(want.cid);
    && i < |rc.logs| && Denotes(rc.status, 1)
    && (htlc.Some? && NormalizeAddress(rc.to).Some? ==> NormalizeAddress(rc.to) == htlc)
    && forall j :: 0 <= j < |rc.logs| && j != i ==>
         ReadLog(rc, htlc, rc.logs[j]) != Raise && !Selected(rc, rc.logs[j], htlc, cid, want.kind)
  }

  lemma {:induction false} SoleReadingParses(rc: Receipt, want: Expectation, i: nat, e: Event)
    requires AllButPass(rc, want, i)
    requires ReadLog(rc, NormalizeAddress(want.htlc), rc.logs[i]) == Found(e)
    requires Passes(e, NormalizeHex(want.cid), want.kind)
    ensures Parsed(rc, want.htlc, want.cid, want.kind) == Ok(e)
  {
    hide ReadLog, Passes, NormalizeAddress, NormalizeHex, Parsed, RawNumber, Denotes;
    QuantityIsRead(rc.status, 1);
    ParsedMeansOne(rc, want.htlc, want.cid, want.kind, e);
    assert Only(rc, rc.logs, NormalizeAddress(want.htlc), NormalizeHex(want.cid), want.kind, i);
  }

  /** Expecting exactly the contract, the id and the kind. */
  function Exactly(contract: string, cid: string, kind: string): Expectation {
    Expectation(Some("0x" + contract), Some("0x" + cid), Some(kind))
  }

  lemma KindNames()
    ensures Lower("Locked") == "locked" && Lower("Claimed") == "claimed" && Lower("Refunded") == "refunded"
  {
  }

  /**
   * Round trip over receipts: where the encoding of a lock is the only matching log, the parse that expects its
   * contract, id and kind returns its fields, if and only if it locks ether or its token's transfer is in the receipt.
   */
  lemma {:induction false} LockedParses(rc: Receipt, f: Lock, i: nat, block: int)
    requires LockFits(f) && Denotes(rc.block, block)
    requires AllButPass(rc, Exactly(f.contract, f.cid, "Locked"), i) && rc.logs[i] == EncodeLocked(f)
    ensures Parsed(rc, Some("0x" + f.contract), Some("0x" + f.cid), Some("Locked"))
      == if "0x" + f.token == ZERO_ADDRESS
            || Records(rc.logs, Transfer("0x" + f.token, "0x" + f.payer, "0x" + f.contract, f.amount))
         then Ok(LockedEvent(f, Some("0x" + f.cid), block)) else Err
  {
    hide ReadLog, NormalizeAddress, NormalizeHex, RawNumber, Denotes, Lower, EncodeLockedAs, Records, LockFits, Matches;
    QuantityIsRead(rc.block, block);
    var want := Exactly(f.contract, f.cid, "Locked");
    assert Digits(f.contract, 40) && Digits(f.cid, 64) by {
      LockDigits(f);
    }
    PaddedAddress(f.contract);
    PrefixedIsNormal(f.cid);
    KindNames();
    LockedReads(rc, NormalizeAddress(want.htlc), f, Some("0x" + f.cid), block);
    var e := LockedEvent(f, Some("0x" + f.cid), block);
    if ReadLog(rc, NormalizeAddress(want.htlc), rc.logs[i]) != Raise {
      SoleReadingParses(rc, want, i, e);
    }
  }

  lemma LockDigits(f: Lock)
    requires LockFits(f)
    ensures Digits(f.contract, 40) && Digits(f.cid, 64)
  {
  }

  lemma {:induction false} ClaimedParses(rc: Receipt, contract: string, cid: string, secret: string, i: nat, block: int)
    requires Digits(contract, 40) && Digits(cid, 64) && Digits(secret, 64) && Denotes(rc.block, block)
    requires AllButPass(rc, Exactly(contract, cid, "Claimed"), i) && rc.logs[i] == EncodeClaimed(contract, cid, secret)
    ensures Parsed(rc, Some("0x" + contract), Some("0x" + cid), Some("Claimed"))
      == Ok(Claimed(Some("0x" + cid), "0x" + contract, Some("0x" + secret), block))
  {
    hide ReadLog, NormalizeAddress, NormalizeHex, RawNumber, Denotes, Lower, EncodeClaimed;
    QuantityIsRead(rc.block, block);
    var want := Exactly(contract, cid, "Claimed");
    PaddedAddress(contract);
    PrefixedIsNormal(cid);
    KindNames();
    ClaimedReads(rc, NormalizeAddress(want.htlc), contract, cid, secret, block);
    SoleReadingParses(rc, want, i, Claimed(Some("0x" + cid), "0x" + contract, Some("0x" + secret), block));
  }

  lemma {:induction false} RefundedParses(rc: Receipt, contract: string, cid: string, i: nat, block: int)
    requires Digits(contract, 40) && Digits(cid, 64) && Denotes(rc.block, block)
    requires AllButPass(rc, Exactly(contract, cid, "Refunded"), i) && rc.logs[i] == EncodeRefunded(contract, cid)
    ensures Parsed(rc, Some("0x" + contract), Some("0x" + cid), Some("Refunded"))
      == Ok(Refunded(Some("0x" + cid), "0x" + contract, block))
  {
    hide ReadLog, NormalizeAddress, NormalizeHex, RawNumber, Denotes, Lower, EncodeRefunded;
    QuantityIsRead(rc.block, block);
    var want := Exactly(contract, cid, "Refunded");
    PaddedAddress(contract);
    PrefixedIsNormal(cid);
    KindNames();
    RefundedReads(rc, NormalizeAddress(want.htlc), contract, cid, block);
    SoleReadingParses(rc, want, i, Refunded(Some("0x" + cid), "0x" + contract, block));
  }

  /** A receipt as a node sends it: successful, in block 7, with one log. */
  function Mined(log: Log): Receipt {
    Receipt(Str("0x1"), None, [log], Str("0x7"))
  }

  lemma {:induction false} MinedDenotes(log: Log)
    ensures Denotes(Mined(log).status, 1) && Denotes(Mined(log).block, 7) && RawNumber(Mined(log).block) == Some(7)
  {
    hide Denotes, RawNumber;
    assert HexText(1, 1) == "1" && HexText(7, 1) == "7" && Pow16(1) == 16;
    assert "0x" + HexText(1, 1) == "0x1" && "0x" + HexText(7, 1) == "0x7";
    TextDenotes(1, 1);
    TextDenotes(7, 1);
    QuantityIsRead(Mined(log).block, 7);
  }

  /** So a receipt of any contract is accepted under an address expectation that is not an address. */
  lemma {:induction false} ForeignReceiptAccepted(contract: string, cid: string, unusable: string) returns (rc: Receipt)
    requires Digits(contract, 40) && Digits(cid, 64) && NormalizeAddress(Some(unusable)).None?
    ensures Parsed(rc, Some(unusable), Some("0x" + cid), Some("Refunded"))
      == Ok(Refunded(Some("0x" + cid), "0x" + contract, 7))
  {
    hide ReadLog, NormalizeAddress, NormalizeHex, RawNumber, Denotes, Lower, EncodeRefunded, Parsed;
    rc := Mined(EncodeRefunded(contract, cid));
    MinedDenotes(EncodeRefunded(contract, cid));
    var want := Expectation(Some(unusable), Some("0x" + cid), Some("Refunded"));
    assert NormalizeAddress(None).None? by {
      NoAddress();
    }
    PrefixedIsNormal(cid);
    KindNames();
    RefundedReads(rc, None, contract, cid, 7);
    SoleReadingParses(rc, want, 0, Refunded(Some("0x" + cid), "0x" + contract, 7));
  }

  lemma NoAddress()
    ensures NormalizeAddress(None).None? && NormalizeHex(None).None?
  {
  }

  /**
   * What of a log the fields of a reported lock determine: all but the token word's first twelve bytes and any tail.
   */
  predicate Encodes(log: Log, f: Lock) {
    && LockFits(f)
    && log.Log? && |log.topics| >= 4 && IsTopic(log.topics[0], KLocked)
    && NormalizeAddress(log.address) == Some("0x" + f.contract)
    && NormalizeHex(log.topics[1]) == Some("0x" + f.cid)
    && NormalizeHex(log.topics[2]) == Some("0x" + PADDING + f.payer)
    && NormalizeHex(log.topics[3]) == Some("0x" + PADDING + f.payee)
    && |DataHex(log.data)| >= 256 && DataHex(log.data)[24..256] == LockData(f)[24..]
  }

  predicate Describes(e: Event, f: Lock) {
    && e.Locked? && e.contract == "0x" + f.contract && e.cid == Some("0x" + f.cid) && e.payer == "0x" + f.payer
    && e.payee == "0x" + f.payee && e.token == Some("0x" + f.token) && e.amount == f.amount
    && e.hashlock == Some("0x" + f.hashlock) && e.refundTimestamp == f.refundTimestamp
  }

  lemma {:induction false} IndexedIsPadded(t: Option<string>)
    requires IndexedAddress(t).Some?
    ensures var a := IndexedAddress(t).value;
      |a| == 42 && Digits(a[2..], 40) && a == "0x" + a[2..] && NormalizeHex(t) == Some("0x" + PADDING + a[2..])
  {
    hide NormalizeHex;
    NormalizeIsCanonical(t);
    var n, a := NormalizeHex(t).value, IndexedAddress(t).value;
    assert a[2..] == n[26..] == n[2..][24..];
    assert n == n[..2] + (n[2..26] + n[26..]);
    assert "0x" + PADDING + a[2..] == "0x" + (PADDING + a[2..]);
  }

  lemma NormalIsPrefixed(v: Option<string>)
    requires NormalizeHex(v).Some?
    ensures var x := NormalizeHex(v).value; |x| >= 2 && AllLow(x[2..]) && x == "0x" + x[2..]
  {
    hide NormalizeHex;
    NormalizeIsCanonical(v);
    var x := NormalizeHex(v).value;
    assert x == x[..2] + x[2..];
  }

  lemma SliceIsLow(data: string, from: nat, to: nat)
    requires AllLow(data) && from <= to <= |data|
    ensures AllLow(data[from..to])
  {
  }

  lemma {:induction false} WordIsNormal(data: string, from: nat, to: nat)
    requires AllLow(data) && from + 2 <= to <= |data| && (to - from) % 2 == 0
    ensures AllLow(data[from..to]) && NormalizeHex(Some("0x" + data[from..to])) == Some("0x" + data[from..to])
  {
    hide NormalizeHex, AllLow;
    SliceIsLow(data, from, to);
    PrefixedIsNormal(data[from..to]);
  }

  lemma {:induction false} WordOfNumber(word: string, n: nat)
    requires AllLow(word) && |word| == 64 && HexNumber(word) == Some(n)
    ensures n < Pow16(64) && word == HexText(n, 64)
  {
    TextOfNumber(word);
  }

  lemma WordsJoin(data: string, f: Lock)
    requires |data| >= 256 && LockFits(f)
    requires data[24..64] == f.token && data[64..128] == HexText(f.amount, 64)
    requires data[128..192] == f.hashlock && data[192..256] == HexText(f.refundTimestamp, 64)
    ensures data[24..256] == LockData(f)[24..]
  {
    hide HexText, LockFits;
    PaddingIsLow();
    var a, b := HexText(f.amount, 64), HexText(f.refundTimestamp, 64);
    assert LockData(f)[24..] == f.token + a + f.hashlock + b;
    assert data[24..256] == data[24..64] + data[64..128] + data[128..192] + data[192..256];
  }

  /** Where each field of a reported lock was read. */
  lemma {:induction false} FieldsOfLock(rc: Receipt, htlc: Option<string>, log: Log, e: Event)
    requires ReadLog(rc, htlc, log) == Found(e) && e.Locked?
    ensures log.Log? && |log.topics| >= 4 && IsTopic(log.topics[0], KLocked) && |DataHex(log.data)| >= 256
    ensures NormalizeAddress(log.address) == Some(e.contract) && NormalizeHex(log.topics[1]) == e.cid
    ensures IndexedAddress(log.topics[2]) == Some(e.payer) && IndexedAddress(log.topics[3]) == Some(e.payee)
    ensures var data := DataHex(log.data);
      && NormalizeAddress(Some("0x" + data[24..64])) == e.token && HexNumber(data[64..128]) == Some(e.amount)
      && NormalizeHex(Some("0x" + data[128..192])) == e.hashlock && HexNumber(data[192..256]) == Some(e.refundTimestamp)
  {
    hide NormalizeHex, NormalizeAddress, Records, DataHex, RawNumber, IsTopic, HexNumber, IndexedAddress;
  }

  /** On hex data, a reported lock with a 32-byte id is the reading of the encoding of its own fields. */
  lemma {:induction false} LockedWasEncoded(rc: Receipt, htlc: Option<string>, log: Log, e: Event) returns (f: Lock)
    requires ReadLog(rc, htlc, log) == Found(e) && e.Locked? && e.cid.Some? && |e.cid.value| == 66
    requires AllLow(DataHex(log.data))
    ensures Describes(e, f) && Encodes(log, f)
  {
    hide NormalizeHex, DataHex, IsTopic, HexText, HexNumber, AllLow, IndexedAddress, LockData, ReadLog, Pow16;
    FieldsOfLock(rc, htlc, log, e);
    var data := DataHex(log.data);
    var token, hashlock := data[24..64], data[128..192];
    NormalIsPrefixed(log.address);
    NormalIsPrefixed(log.topics[1]);
    IndexedIsPadded(log.topics[2]);
    IndexedIsPadded(log.topics[3]);
    f := Lock(e.contract[2..], e.cid.value[2..], e.payer[2..], e.payee[2..], token, e.amount, hashlock,
      e.refundTimestamp);
    WordIsNormal(data, 24, 64);
    SliceIsLow(data, 64, 128);
    WordIsNormal(data, 128, 192);
    SliceIsLow(data, 192, 256);
    WordOfNumber(data[64..128], e.amount);
    WordOfNumber(data[192..256], e.refundTimestamp);
    WordsJoin(data, f);
  }
}
