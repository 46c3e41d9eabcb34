/** What a successful parse of a receipt means, and that it inverts the ABI encoding of the events. */
module ReceiptLaws {
  import opened Options
  import opened PyHex
  import opened Receipts

  // ---- quantities ----

  function Pow10(k: nat): nat {
    if k == 0 then 1 else 10 * Pow10(k - 1)
  }

  /** A number in exactly k decimal digits. */
  function DecimalText(n: nat, k: nat): (s: string)
    ensures |s| == k
  {
    if k == 0 then "" else DecimalText(n / 10, k - 1) + [('0' as int + n % 10) as char]
  }

  /** The text spells the number in some positive number of hex digits of either case, or of decimal digits. */
  ghost predicate Spells(text: string, hex: bool, n: int) {
    && n >= 0
    && if hex then exists k: nat :: k > 0 && n < Pow16(k) && Lower(text) == "0x" + HexText(n, k)
       else exists k: nat :: k > 0 && n < Pow10(k) && text == DecimalText(n, k)
  }

  /** What a status or block number denotes; text after 0x is hex, other text decimal, and the ends may be blank. */
  ghost predicate Denotes(raw: Raw, n: int) {
    match raw
    case Null | Other => false
    case Flag(b) => n == if b then 1 else 0
    case Number(m) => n == m
    case Str(s) => Spells(Strip(s), |s| >= 2 && s[..2] == "0x", n)
  }

  lemma LowerPrefixed(s: string)
    ensures Lower("0x" + s) == "0x" + Lower(s)
  {
  }

  lemma {:induction false} HexValOfLower(s: string)
    requires AllHex(s)
    ensures AllLow(Lower(s)) && AllHex(Lower(s)) && HexVal(Lower(s)) == HexVal(s)
  {
    if s != "" {
      HexValOfLower(s[..|s| - 1]);
      assert Lower(s)[..|s| - 1] == Lower(s[..|s| - 1]);
    }
  }

  /** On text of hex digits, int(s, 16) is the number that those digits spell. */
  lemma {:induction false} HexNumberExactly(s: string, n: int)
    requires s != ""
    ensures HexNumber(s).Some? && HexNumber(s).value == n
      <==> 0 <= n < Pow16(|s|) && Lower(s) == HexText(n, |s|)
  {
    hide HexText, HexVal, Pow16, Lower;
    if AllHex(s) {
      HexValOfLower(s);
      TextOfNumber(Lower(s));
    }
    if 0 <= n < Pow16(|s|) && Lower(s) == HexText(n, |s|) {
      HexTextReads(n, |s|);
      LowerIsHex(s);
      HexValOfLower(s);
    }
  }

  lemma LowerIsHex(s: string)
    requires AllLow(Lower(s))
    ensures AllHex(s)
  {
    forall i | 0 <= i < |s| ensures IsHexChar(s[i]) {
      assert IsLowHex(Lower(s)[i]);
    }
  }

  lemma {:induction false} DecimalNumberExactly(s: string, n: int)
    requires s != ""
    ensures DecimalNumber(s) == Some(n) <==> 0 <= n < Pow10(|s|) && s == DecimalText(n, |s|)
  {
    hide DecimalText, DecimalValue, Pow10;
    if AllDecimal(s) {
      TextOfDecimal(s);
    }
    if 0 <= n < Pow10(|s|) && s == DecimalText(n, |s|) {
      DecimalTextReads(n, |s|);
    }
  }

  lemma {:induction false} TextOfDecimal(s: string)
    requires AllDecimal(s)
    ensures 0 <= DecimalValue(s) < Pow10(|s|) && DecimalText(DecimalValue(s), |s|) == s
  {
    if s != "" {
      var init, last := s[..|s| - 1], s[|s| - 1] as int - '0' as int;
      TextOfDecimal(init);
      assert DecimalValue(s) / 10 == DecimalValue(init) && DecimalValue(s) % 10 == last;
    }
  }

  lemma {:induction false} DecimalTextReads(n: nat, k: nat)
    requires n < Pow10(k)
    ensures AllDecimal(DecimalText(n, k)) && DecimalValue(DecimalText(n, k)) == n
  {
    if k > 0 {
      DecimalTextReads(n / 10, k - 1);
      var s := DecimalText(n, k);
      assert s[..|s| - 1] == DecimalText(n / 10, k - 1);
    }
  }

  lemma {:induction false} StripRightKeeps(s: string, k: nat)
    requires k <= |s| && (k > 0 ==> !IsSpace(s[k - 1]))
    ensures k <= |StripRight(s)| && StripRight(s)[..k] == s[..k]
  {
    if |s| > k && IsSpace(s[|s| - 1]) {
      StripRightKeeps(s[..|s| - 1], k);
    }
  }

  /** A status or block number is read exactly as what it denotes. */
  lemma {:induction false} QuantityIsRead(raw: Raw, n: int)
    ensures RawNumber(raw) == Some(n) <==> Denotes(raw, n)
  {
    hide Lower, HexText, DecimalText, Pow16, Pow10, HexNumber, DecimalNumber;
    if raw.Str? {
      TextIsRead(raw.s, n);
    }
  }

  lemma {:induction false} TextIsRead(s: string, n: int)
    ensures TextNumber(s) == Some(n) <==> Spells(Strip(s), |s| >= 2 && s[..2] == "0x", n)
  {
    hide Lower, HexText, DecimalText, Pow16, Pow10, HexNumber, DecimalNumber, StripRight;
    var t := Strip(s);
    if |s| >= 2 && s[..2] == "0x" {
      assert s[0] == s[..2][0] && s[1] == s[..2][1];
      StripRightKeeps(s, 2);
      var body := t[2..];
      assert t == "0x" + body;
      LowerPrefixed(body);
      assert Unprefixed(t) == body;
      HexBodyIsRead(body, n);
    } else {
      NoDigits();
      if t != "" {
        DecimalNumberExactly(t, n);
      }
    }
  }

  lemma NoDigits()
    ensures DecimalNumber("").None? && HexNumber("").None?
  {
  }

  lemma {:induction false} HexBodyIsRead(body: string, n: int)
    ensures HexNumber(body).Some? && HexNumber(body).value == n <==> Spells("0x" + body, true, n)
  {
    hide HexText, Pow16, HexNumber, Lower;
    LowerPrefixed(body);
    NoDigits();
    if body != "" {
      HexNumberExactly(body, n);
    }
    if Spells("0x" + body, true, n) {
      var k: nat :| k > 0 && n < Pow16(k) && Lower("0x" + body) == "0x" + HexText(n, k);
      assert ("0x" + HexText(n, k))[2..] == HexText(n, k) && ("0x" + Lower(body))[2..] == Lower(body);
    }
  }

  /** The hex text of a number, in any number of digits, denotes it; so does its decimal text. */
  lemma {:induction false} TextDenotes(n: nat, k: nat)
    requires k > 0
    ensures n < Pow16(k) ==> Denotes(Str("0x" + HexText(n, k)), n)
    ensures n < Pow10(k) ==> Denotes(Str(DecimalText(n, k)), n)
  {
    hide Lower, HexText, DecimalText, Pow16, Pow10, StripLeft, StripRight;
    if n < Pow16(k) {
      HexTextReads(n, k);
      var s := "0x" + HexText(n, k);
      assert IsLowHex(HexText(n, k)[k - 1]);
      NothingToStrip(s);
      LowerPrefixed(HexText(n, k));
      LowStaysLow(HexText(n, k));
      assert s[..2] == "0x";
    }
    if n < Pow10(k) {
      DecimalTextReads(n, k);
      var s := DecimalText(n, k);
      assert '0' <= s[0] <= '9' && '0' <= s[k - 1] <= '9';
      NothingToStrip(s);
      assert |s| >= 2 && s[..2] == "0x" ==> s[1] == s[..2][1];
    }
  }

  // ---- exactly one event ----

  /** The one log whose event passes the filters. */
  predicate Only(rc: Receipt, logs: seq<Log>, htlc: Option<string>, cid: Option<string>, kind: Option<string>, i: nat) {
    && i < |logs| && Selected(rc, logs[i], htlc, cid, kind)
    && forall j :: 0 <= j < |logs| && j != i ==> !Selected(rc, logs[j], htlc, cid, kind)
  }

  predicate Selected(rc: Receipt, log: Log, htlc: Option<string>, cid: Option<string>, kind: Option<string>) {
    ReadLog(rc, htlc, log).Found? && Passes(ReadLog(rc, htlc, log).event, cid, kind)
  }

  lemma {:induction false} NoneSelected(rc: Receipt, logs: seq<Log>, htlc: Option<string>, cid: Option<string>,
    kind: Option<string>)
    ensures Matches(rc, logs, htlc, cid, kind) == [] <==>
      forall j :: 0 <= j < |logs| ==> !Selected(rc, logs[j], htlc, cid, kind)
  {
    hide ReadLog, Passes;
    if logs != [] {
      var init, last := logs[..|logs| - 1], logs[|logs| - 1];
      NoneSelected(rc, init, htlc, cid, kind);
      assert forall j :: 0 <= j < |init| ==> init[j] == logs[j];
    }
  }

  /** Two logs that both pass cannot be told apart: the parse succeeds only on a single one, and returns its event. */
  lemma {:induction false} OneSelected(rc: Receipt, logs: seq<Log>, htlc: Option<string>, cid: Option<string>,
    kind: Option<string>) returns (i: nat)
    requires |Matches(rc, logs, htlc, cid, kind)| == 1
    ensures Only(rc, logs, htlc, cid, kind, i)
    ensures Matches(rc, logs, htlc, cid, kind) == [ReadLog(rc, htlc, logs[i]).event]
  {
    hide ReadLog, Passes;
    var init, last := logs[..|logs| - 1], logs[|logs| - 1];
    if Selected(rc, last, htlc, cid, kind) {
      i := |logs| - 1;
      NoneSelected(rc, init, htlc, cid, kind);
      assert forall j :: 0 <= j < |init| ==> init[j] == logs[j];
    } else {
      i := OneSelected(rc, init, htlc, cid, kind);
      assert forall j :: 0 <= j < |init| ==> init[j] == logs[j];
    }
  }

  lemma {:induction false} OnlyOneMatches(rc: Receipt, logs: seq<Log>, htlc: Option<string>, cid: Option<string>,
    kind: Option<string>, i: nat)
    requires Only(rc, logs, htlc, cid, kind, i)
    ensures Matches(rc, logs, htlc, cid, kind) == [ReadLog(rc, htlc, logs[i]).event]
  {
    hide ReadLog, Passes;
    var init, last := logs[..|logs| - 1], logs[|logs| - 1];
    assert forall j :: 0 <= j < |init| ==> init[j] == logs[j];
    if i == |logs| - 1 {
      NoneSelected(rc, init, htlc, cid, kind);
    } else {
      OnlyOneMatches(rc, init, htlc, cid, kind, i);
    }
  }

  /** A parse succeeds exactly when the guards hold, no log ends it, and exactly one log passes every filter. */
  lemma ParsedMeansOne(rc: Receipt, expectedHtlc: Option<string>, expectedCid: Option<string>, kind: Option<string>,
    e: Event)
    ensures
      var htlc, cid := NormalizeAddress(expectedHtlc), NormalizeHex(expectedCid);
      Parsed(rc, expectedHtlc, expectedCid, kind) == Ok(e) <==>
        && Guarded(rc, htlc) && Calm(rc, rc.logs, htlc)
        && exists i: nat ::
             i < |rc.logs| && Only(rc, rc.logs, htlc, cid, kind, i) && ReadLog(rc, htlc, rc.logs[i]) == Found(e)
  {
    hide ReadLog, Passes, Guarded, Calm, NormalizeAddress, NormalizeHex, Matches, Selected;
    var htlc, cid := NormalizeAddress(expectedHtlc), NormalizeHex(expectedCid);
    if |Matches(rc, rc.logs, htlc, cid, kind)| == 1 {
      var i := OneSelected(rc, rc.logs, htlc, cid, kind);
      SelectedIsFound(rc, rc.logs[i], htlc, cid, kind);
    }
    forall i: nat | Only(rc, rc.logs, htlc, cid, kind, i)
      ensures ReadLog(rc, htlc, rc.logs[i]).Found?
      ensures Matches(rc, rc.logs, htlc, cid, kind) == [ReadLog(rc, htlc, rc.logs[i]).event]
    {
      SelectedIsFound(rc, rc.logs[i], htlc, cid, kind);
      OnlyOneMatches(rc, rc.logs, htlc, cid, kind, i);
    }
  }

  lemma {:induction false} SelectedIsFound(rc: Receipt, log: Log, htlc: Option<string>, cid: Option<string>,
      kind: Option<string>)
    requires Selected(rc, log, htlc, cid, kind)
    ensures ReadLog(rc, htlc, log).Found?
  {
  }

  // ---- the order of the logs ----

  lemma OnceMeansOnePlace(logs: seq<Log>, i: nat)
    requires i < |logs|
    ensures multiset(logs)[logs[i]] == 1 <==> forall j :: 0 <= j < |logs| && j != i ==> logs[j] != logs[i]
  {
    var before, after := logs[..i], logs[i + 1..];
    assert logs == before + [logs[i]] + after;
    assert multiset(logs) == multiset(before) + multiset([logs[i]]) + multiset(after);
    assert logs[i] in multiset(before) <==> logs[i] in before;
    assert logs[i] in multiset(after) <==> logs[i] in after;
    assert forall j :: 0 <= j < i ==> before[j] == logs[j];
    assert forall j :: i < j < |logs| ==> after[j - i - 1] == logs[j];
  }

  /** A log that passes, occurs once, and is the only one that passes: said without positions. */
  predicate Alone(rc: Receipt, logs: multiset<Log>, htlc: Option<string>, cid: Option<string>, kind: Option<string>,
      x: Log) {
    && logs[x] == 1 && Selected(rc, x, htlc, cid, kind)
    && forall y :: y in logs && Selected(rc, y, htlc, cid, kind) ==> y == x
  }

  lemma {:induction false} OnlyIsAlone(rc: Receipt, logs: seq<Log>, htlc: Option<string>, cid: Option<string>,
      kind: Option<string>, i: nat)
    requires i < |logs|
    ensures Only(rc, logs, htlc, cid, kind, i) <==> Alone(rc, multiset(logs), htlc, cid, kind, logs[i])
  {
    hide Selected;
    OnceMeansOnePlace(logs, i);
    assert forall y :: y in multiset(logs) <==> y in logs;
  }

  /** Readings depend on the other logs only through which logs there are. */
  lemma {:induction false} ReadingShuffled(rc: Receipt, logs: seq<Log>, htlc: Option<string>, log: Log)
    requires multiset(rc.logs) == multiset(logs)
    ensures ReadLog(rc.(logs := logs), htlc, log) == ReadLog(rc, htlc, log)
  {
    hide ReadTransfer, NormalizeHex, NormalizeAddress, IndexedAddress, HexNumber, IsTopic, DataHex, RawNumber;
    forall t
      ensures Records(rc.logs, t) == Records(logs, t)
    {
      RecordsShuffled(rc.logs, logs, t);
    }
  }

  lemma {:induction false} RecordsShuffled(a: seq<Log>, b: seq<Log>, t: Transfer)
    requires multiset(a) == multiset(b)
    ensures Records(a, t) == Records(b, t)
  {
    hide ReadTransfer;
    forall x
      ensures x in a <==> x in b
    {
      assert x in multiset(a) <==> x in multiset(b);
    }
    if Records(a, t) {
      var i :| 0 <= i < |a| && ReadTransfer(a[i]) == Some(t);
      assert a[i] in b;
    }
    if Records(b, t) {
      var i :| 0 <= i < |b| && ReadTransfer(b[i]) == Some(t);
      assert b[i] in a;
    }
  }

  lemma {:induction false} SuccessShuffled(rc: Receipt, logs: seq<Log>, expectedHtlc: Option<string>,
      expectedCid: Option<string>, kind: Option<string>, e: Event)
    requires multiset(rc.logs) == multiset(logs)
    requires Parsed(rc, expectedHtlc, expectedCid, kind) == Ok(e)
    ensures Parsed(rc.(logs := logs), expectedHtlc, expectedCid, kind) == Ok(e)
  {
    hide NormalizeHex, NormalizeAddress, ReadLog, Passes, Matches, Parsed, Only, Alone;
    var htlc, cid, other := NormalizeAddress(expectedHtlc), NormalizeHex(expectedCid), rc.(logs := logs);
    ParsedMeansOne(rc, expectedHtlc, expectedCid, kind, e);
    ParsedMeansOne(other, expectedHtlc, expectedCid, kind, e);
    var i: nat :| i < |rc.logs| && Only(rc, rc.logs, htlc, cid, kind, i) && ReadLog(rc, htlc, rc.logs[i]) == Found(e);
    OnlyIsAlone(rc, rc.logs, htlc, cid, kind, i);
    var x := rc.logs[i];
    assert x in multiset(logs);
    var k: nat :| k < |logs| && logs[k] == x;
    ReadingShuffled(rc, logs, htlc, x);
    AloneShuffled(rc, logs, htlc, cid, kind, x);
    OnlyIsAlone(other, logs, htlc, cid, kind, k);
    CalmShuffled(rc, logs, htlc);
  }

  lemma {:induction false} AloneShuffled(rc: Receipt, logs: seq<Log>, htlc: Option<string>, cid: Option<string>,
      kind: Option<string>, x: Log)
    requires multiset(rc.logs) == multiset(logs)
    requires Alone(rc, multiset(rc.logs), htlc, cid, kind, x)
    ensures Alone(rc.(logs := logs), multiset(logs), htlc, cid, kind, x)
  {
    hide ReadLog, Passes;
    forall y
      ensures ReadLog(rc.(logs := logs), htlc, y) == ReadLog(rc, htlc, y)
    {
      ReadingShuffled(rc, logs, htlc, y);
    }
  }

  lemma {:induction false} CalmShuffled(rc: Receipt, logs: seq<Log>, htlc: Option<string>)
    requires multiset(rc.logs) == multiset(logs)
    requires Guarded(rc, htlc) && Calm(rc, rc.logs, htlc)
    ensures Guarded(rc.(logs := logs), htlc) && Calm(rc.(logs := logs), logs, htlc)
  {
    hide ReadLog, NormalizeAddress, RawNumber;
    assert |multiset(logs)| == |logs| == |rc.logs|;
    forall k | 0 <= k < |logs|
      ensures ReadLog(rc.(logs := logs), htlc, logs[k]) != Raise
    {
      assert logs[k] in multiset(rc.logs);
      ReadingShuffled(rc, logs, htlc, logs[k]);
    }
  }

  /** Neither whether the parse succeeds nor what it returns depends on the order of the logs. */
  lemma {:induction false} OrderIsIrrelevant(rc: Receipt, logs: seq<Log>, expectedHtlc: Option<string>,
      expectedCid: Option<string>, kind: Option<string>)
    requires multiset(rc.logs) == multiset(logs)
    ensures Parsed(rc.(logs := logs), expectedHtlc, expectedCid, kind) == Parsed(rc, expectedHtlc, expectedCid, kind)
  {
    hide Parsed;
    var here, there := Parsed(rc, expectedHtlc, expectedCid, kind),
      Parsed(rc.(logs := logs), expectedHtlc, expectedCid, kind);
    if here.Ok? {
      SuccessShuffled(rc, logs, expectedHtlc, expectedCid, kind, here.value);
    }
    if there.Ok? {
      SuccessShuffled(rc.(logs := logs), rc.logs, expectedHtlc, expectedCid, kind, there.value);
      assert rc.(logs := logs).(logs := rc.logs) == rc;
    }
  }

  // ---- what the returned event says ----

  /**
   * The event comes from the expected contract address, carries the expected contract id and is of the expected kind,
   * provided the expectations are usable: an address that does not normalize to 20 bytes filters nothing. Its receipt
   * reports success, goes to that address where it says whereto, and is of the event's block.
   */
  lemma {:induction false} EventMeetsExpectations(rc: Receipt, expectedHtlc: Option<string>,
      expectedCid: Option<string>, kind: Option<string>, e: Event)
    requires Parsed(rc, expectedHtlc, expectedCid, kind) == Ok(e)
    ensures NormalizeAddress(expectedHtlc).Some? ==> Some(e.contract) == NormalizeAddress(expectedHtlc)
    ensures NormalizeHex(expectedCid).Some? ==> e.cid == NormalizeHex(expectedCid)
    ensures kind.Some? && kind.value != "" ==> KindName(e) == Lower(kind.value)
    ensures NormalizeAddress(Some(e.contract)) == Some(e.contract)
    ensures e.cid.Some? ==> NormalizeHex(e.cid) == e.cid
    ensures Denotes(rc.status, 1) && Denotes(rc.block, e.block)
    ensures NormalizeAddress(expectedHtlc).Some? && NormalizeAddress(rc.to).Some? ==>
      NormalizeAddress(rc.to) == NormalizeAddress(expectedHtlc)
  {
    hide NormalizeHex, NormalizeAddress, Matches, Parsed, Lower, ReadLog, KindName, Calm, RawNumber, Denotes;
    QuantityIsRead(rc.status, 1);
    QuantityIsRead(rc.block, e.block);
    ParsedMeansOne(rc, expectedHtlc, expectedCid, kind, e);
    var htlc, cid := NormalizeAddress(expectedHtlc), NormalizeHex(expectedCid);
    var i: nat :| i < |rc.logs| && Only(rc, rc.logs, htlc, cid, kind, i) && ReadLog(rc, htlc, rc.logs[i]) == Found(e);
    FoundContract(rc, htlc, rc.logs[i]);
  }

  lemma {:induction false} FoundContract(rc: Receipt, htlc: Option<string>, log: Log)
    requires ReadLog(rc, htlc, log).Found?
    ensures var e := ReadLog(rc, htlc, log).event;
      && (htlc.Some? ==> Some(e.contract) == htlc) && NormalizeAddress(Some(e.contract)) == Some(e.contract)
      && (e.cid.Some? ==> NormalizeHex(e.cid) == e.cid) && RawNumber(rc.block) == Some(e.block)
  {
    hide NormalizeHex, NormalizeAddress, IndexedAddress, HexNumber, Records, DataHex, RawNumber, IsTopic;
    AddressIsCanonical(log.address);
    if |log.topics| > 1 {
      NormalizeTwice(log.topics[1]);
    }
  }

  lemma NormalizeTwice(v: Option<string>)
    ensures NormalizeHex(v).Some? ==> NormalizeHex(NormalizeHex(v)) == NormalizeHex(v)
  {
    hide NormalizeHex;
    NormalizeIsCanonical(v);
    if NormalizeHex(v).Some? {
      NormalizeCanonical(NormalizeHex(v).value);
    }
  }

  /** An expectation that does not normalize is no expectation. */
  lemma UnusableExpectations(rc: Receipt, expectedHtlc: Option<string>, expectedCid: Option<string>,
      kind: Option<string>)
    ensures NormalizeAddress(expectedHtlc).None? ==>
      Parsed(rc, expectedHtlc, expectedCid, kind) == Parsed(rc, None, expectedCid, kind)
    ensures NormalizeHex(expectedCid).None? ==>
      Parsed(rc, expectedHtlc, expectedCid, kind) == Parsed(rc, expectedHtlc, None, kind)
  {
    hide Matches, Guarded, Calm;
  }

  /**
   * A lock of a token is only reported with the token's transfer of that amount, payer to escrow, in the same
   * receipt.
   */
  lemma {:induction false} LockedTokenWasTransferred(rc: Receipt, expectedHtlc: Option<string>,
      expectedCid: Option<string>, kind: Option<string>, e: Event)
    requires Parsed(rc, expectedHtlc, expectedCid, kind) == Ok(e) && e.Locked?
    ensures e.transferVerified <==> e.token.Some? && e.token.value != ZERO_ADDRESS
    ensures e.transferVerified ==> Records(rc.logs, Transfer(e.token.value, e.payer, e.contract, e.amount))
  {
    hide NormalizeHex, NormalizeAddress, Matches, Parsed, ReadLog, Passes, Guarded, Calm, Records;
    ParsedMeansOne(rc, expectedHtlc, expectedCid, kind, e);
    var htlc, cid := NormalizeAddress(expectedHtlc), NormalizeHex(expectedCid);
    var i: nat :| i < |rc.logs| && Only(rc, rc.logs, htlc, cid, kind, i) && ReadLog(rc, htlc, rc.logs[i]) == Found(e);
    FoundLocked(rc, htlc, rc.logs[i], e);
  }

  lemma {:induction false} FoundLocked(rc: Receipt, htlc: Option<string>, log: Log, e: Event)
    requires ReadLog(rc, htlc, log) == Found(e) && e.Locked?
    ensures e.transferVerified <==> e.token.Some? && e.token.value != ZERO_ADDRESS
    ensures e.transferVerified ==> Records(rc.logs, Transfer(e.token.value, e.payer, e.contract, e.amount))
  {
    hide NormalizeHex, NormalizeAddress, IndexedAddress, HexNumber, Records, DataHex, RawNumber, IsTopic;
  }
}
