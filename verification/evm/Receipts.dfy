/** Reading HTLC events and ERC-20 transfers out of a transaction receipt. */
module Receipts {
  import opened Options
  import opened PyHex

  datatype Result<T> = Ok(value: T) | Err

  /** A JSON value where the code accepts several types. */
  datatype Raw = Null | Flag(b: bool) | Number(n: int) | Str(s: string) | Other

  datatype Data = NoData | Text(s: string)

  /** An entry of the receipt's logs; a topic that is not a string is None. */
  datatype Log =
    | Alien
    | Log(address: Option<string>, topics: seq<Option<string>>, data: Data)

  /** A receipt; a logs value that is not a list reads as the empty list. */
  datatype Receipt = Receipt(status: Raw, to: Option<string>, logs: seq<Log>, block: Raw)

  datatype Event =
    | Locked(cid: Option<string>, contract: string, payer: string, payee: string, token: Option<string>,
             amount: nat, hashlock: Option<string>, refundTimestamp: nat, block: int, transferVerified: bool)
    | Claimed(cid: Option<string>, contract: string, secret: Option<string>, block: int)
    | Refunded(cid: Option<string>, contract: string, block: int)

  datatype Kind = KLocked | KClaimed | KRefunded | KTransfer

  const ZERO_ADDRESS := "0x0000000000000000000000000000000000000000"

  /** The topic of an event: the Keccak-256 digest of its signature, in lower case. */
  function Topic0(k: Kind): string {
    "0x" + Lower(Signature(k))
  }

  function Signature(k: Kind): string {
    match k
    case KLocked => "114047c75cfbf58e" + "d5a7bfc41259c626" + "bfd41cf63c6d7e2d" + "1a7ae6d6dde16288"
    case KClaimed => "38d6042dbdae8e73" + "a7f6afbabd3fbe08" + "73f9f5ed3cd71294" + "591c3908c2e65fee"
    case KRefunded => "fe509803c09416b2" + "8ff3d8f690c8b0c6" + "1462a892c46d5430" + "c8fb20abe472daf0"
    case KTransfer => "ddf252ad1be2c89b" + "69c2b068fc378daa" + "952ba7f163c4a116" + "28f55a4df523b3ef"
  }

  predicate IsTopic(t: Option<string>, k: Kind) {
    t.Some? && Lower(t.value) == Topic0(k)
  }

  const PADDING := "000000000000000000000000"

  /** The address in an indexed topic: 32 bytes whose first twelve are zero. */
  function IndexedAddress(t: Option<string>): Option<string> {
    var n := NormalizeHex(t);
    if n.Some? && |n.value| == 66 && n.value[2..26] == PADDING then Some("0x" + n.value[26..]) else None
  }

  // ---- ERC-20 transfers ----

  datatype Transfer = Transfer(token: string, payer: string, payee: string, amount: nat)

  /** The amount in a transfer's data; empty data is zero. */
  function TransferAmount(d: Data): Option<nat> {
    if d.NoData? then None
    else
      var clean := Unprefixed(Strip(d.s));
      if clean == "" then Some(0) else HexNumber(clean)
  }

  /** The transfer that a log records, if it is one. */
  function ReadTransfer(log: Log): Option<Transfer> {
    if log.Alien? then None
    else
      var token := NormalizeAddress(log.address);
      if token.None? || |log.topics| < 3 || !IsTopic(log.topics[0], KTransfer) then None
      else
        var payer, payee, amount := IndexedAddress(log.topics[1]), IndexedAddress(log.topics[2]),
          TransferAmount(log.data);
        if payer.None? || payee.None? || amount.None? then None
        else Some(Transfer(token.value, payer.value, payee.value, amount.value))
  }

  /** Some log of the receipt records this transfer. */
  predicate Records(logs: seq<Log>, t: Transfer) {
    exists i :: 0 <= i < |logs| && ReadTransfer(logs[i]) == Some(t)
  }

  /** parse_and_verify_erc20_transfer, for addresses as text and an amount as a number. */
  method ParseAndVerifyErc20Transfer(logs: seq<Log>, tokenAddress: Option<string>, expectedPayer: Option<string>,
    expectedHtlc: Option<string>, expectedAmount: nat) returns (r: Result<Transfer>)
    ensures r.Ok? <==>
      var token, payer, htlc := NormalizeAddress(tokenAddress), NormalizeAddress(expectedPayer),
        NormalizeAddress(expectedHtlc);
      && token.Some? && token.value != ZERO_ADDRESS && payer.Some? && htlc.Some?
      && Records(logs, Transfer(token.value, payer.value, htlc.value, expectedAmount))
    ensures r.Ok? ==>
      && NormalizeAddress(tokenAddress) == Some(r.value.token) && NormalizeAddress(expectedPayer) == Some(r.value.payer)
      && NormalizeAddress(expectedHtlc) == Some(r.value.payee) && r.value.amount == expectedAmount
  {
    hide ReadTransfer, NormalizeAddress;
    var token, payer, htlc := NormalizeAddress(tokenAddress), NormalizeAddress(expectedPayer),
      NormalizeAddress(expectedHtlc);
    if token.None? || token.value == ZERO_ADDRESS || payer.None? || htlc.None? {
      return Err;
    }
    var expected := Transfer(token.value, payer.value, htlc.value, expectedAmount);
    var matching: seq<Transfer> := [];
    for i := 0 to |logs|
      invariant forall k :: 0 <= k < |matching| ==> matching[k] == expected
      invariant |matching| > 0 <==> Records(logs[..i], expected)
    {
      assert logs[..i + 1] == logs[..i] + [logs[i]];
      var found := ReadTransfer(logs[i]);
      if found.Some? && found.value.token == token.value && found.value.payer == payer.value
         && found.value.payee == htlc.value && found.value.amount == expectedAmount {
        assert ReadTransfer(logs[..i + 1][i]) == Some(expected);
        matching := matching + [found.value];
      }
    }
    assert logs[..|logs|] == logs;
    return if |matching| == 0 then Err else Ok(matching[0]);
  }

  // ---- HTLC events ----

  /** What one log contributes: nothing, an exception that ends the parse, or an event. */
  datatype Reading = Skip | Raise | Found(event: Event)

  /** int(s) and int(s, 16) on plain digits; a hex text that starts with a space is read as a decimal, which fails. */
  function TextNumber(s: string): Option<int> {
    if |s| >= 2 && s[..2] == "0x" then
      var n := HexNumber(Unprefixed(Strip(s)));
      if n.Some? then Some(n.value) else None
    else DecimalNumber(Strip(s))
  }

  predicate AllDecimal(s: string) {
    forall i :: 0 <= i < |s| ==> '0' <= s[i] <= '9'
  }

  function DecimalNumber(s: string): Option<int> {
    if s == "" || !AllDecimal(s) then None else Some(DecimalValue(s))
  }

  function DecimalValue(s: string): int
    requires AllDecimal(s)
  {
    if s == "" then 0 else 10 * DecimalValue(s[..|s| - 1]) + (s[|s| - 1] as int - '0' as int)
  }

  function RawNumber(raw: Raw): Option<int> {
    match raw
    case Null | Other => None
    case Flag(b) => Some(if b then 1 else 0)
    case Number(n) => Some(n)
    case Str(s) => TextNumber(s)
  }

  /** The event data as lower-case text without its prefix. */
  function DataHex(d: Data): string {
    if d.NoData? then ""
    else
      var low := Lower(d.s);
      if |low| >= 2 && low[..2] == "0x" then low[2..] else low
  }

  function ReadLocked(logs: seq<Log>, topics: seq<Option<string>>, data: string, contract: string, block: int)
      : Reading {
    if |topics| < 4 then Skip
    else
      var payer, payee := IndexedAddress(topics[2]), IndexedAddress(topics[3]);
      if payer.None? || payee.None? || |data| < 256 then Skip
      else
        var token := NormalizeAddress(Some("0x" + data[24..64]));
        var amount, refund := HexNumber(data[64..128]), HexNumber(data[192..256]);
        if amount.None? || refund.None? then Raise
        else
          var foreign := token.Some? && token.value != ZERO_ADDRESS;
          if foreign && !Records(logs, Transfer(token.value, payer.value, contract, amount.value)) then Raise
          else Found(Locked(NormalizeHex(topics[1]), contract, payer.value, payee.value, token, amount.value,
                            NormalizeHex(Some("0x" + data[128..192])), refund.value, block, foreign))
  }

  function ReadClaimed(topics: seq<Option<string>>, data: string, contract: string, block: int): Reading {
    if |topics| < 2 || |data| < 64 then Skip
    else Found(Claimed(NormalizeHex(topics[1]), contract, NormalizeHex(Some("0x" + data[..64])), block))
  }

  function ReadRefunded(topics: seq<Option<string>>, contract: string, block: int): Reading {
    if |topics| < 2 then Skip else Found(Refunded(NormalizeHex(topics[1]), contract, block))
  }

  /** One turn of the log loop, inside a receipt and under an address filter. */
  function ReadLog(rc: Receipt, htlc: Option<string>, log: Log): Reading {
    if log.Alien? then Skip
    else
      var contract := NormalizeAddress(log.address);
      if contract.None? || (htlc.Some? && contract != htlc) || |log.topics| == 0 then Skip
      else
        var block := RawNumber(rc.block);
        var data := DataHex(log.data);
        if block.None? then Raise
        else if IsTopic(log.topics[0], KLocked) then
          ReadLocked(rc.logs, log.topics, data, contract.value, block.value)
        else if IsTopic(log.topics[0], KClaimed) then
          ReadClaimed(log.topics, data, contract.value, block.value)
        else if IsTopic(log.topics[0], KRefunded) then
          ReadRefunded(log.topics, contract.value, block.value)
        else Skip
  }

  function KindName(e: Event): string {
    match e
    case Locked(_, _, _, _, _, _, _, _, _, _) => "locked"
    case Claimed(_, _, _, _) => "claimed"
    case Refunded(_, _, _) => "refunded"
  }

  /** The two filters after the loop; an absent or unusable expectation filters nothing. */
  predicate Passes(e: Event, cid: Option<string>, kind: Option<string>) {
    && (cid.Some? ==> e.cid == cid)
    && (kind.Some? && kind.value != "" ==> KindName(e) == Lower(kind.value))
  }

  /** The guards before the loop. */
  predicate Guarded(rc: Receipt, htlc: Option<string>) {
    && RawNumber(rc.status) == Some(1)
    && (htlc.Some? && NormalizeAddress(rc.to).Some? ==> NormalizeAddress(rc.to) == htlc)
    && rc.logs != []
  }

  /** The events that pass, in the order of the logs. */
  function Matches(rc: Receipt, logs: seq<Log>, htlc: Option<string>, cid: Option<string>, kind: Option<string>)
      : seq<Event> {
    if logs == [] then []
    else
      var reading := ReadLog(rc, htlc, logs[|logs| - 1]);
      var before := Matches(rc, logs[..|logs| - 1], htlc, cid, kind);
      if reading.Found? && Passes(reading.event, cid, kind) then before + [reading.event] else before
  }

  predicate Calm(rc: Receipt, logs: seq<Log>, htlc: Option<string>) {
    forall i :: 0 <= i < |logs| ==> ReadLog(rc, htlc, logs[i]) != Raise
  }

  /** The parse as a function of the receipt. */
  function Parsed(rc: Receipt, expectedHtlc: Option<string>, expectedCid: Option<string>, kind: Option<string>)
      : Result<Event> {
    var htlc, cid := NormalizeAddress(expectedHtlc), NormalizeHex(expectedCid);
    var events := Matches(rc, rc.logs, htlc, cid, kind);
    if Guarded(rc, htlc) && Calm(rc, rc.logs, htlc) && |events| == 1 then Ok(events[0]) else Err
  }

  lemma {:induction false} IndexedIsCanonical(t: Option<string>)
    ensures IndexedAddress(t).Some? ==> NormalizeAddress(IndexedAddress(t)) == IndexedAddress(t)
  {
    hide NormalizeHex, Canonical;
    NormalizeIsCanonical(t);
    if IndexedAddress(t).Some? {
      TailIsCanonical(NormalizeHex(t).value);
      NormalizeCanonical(IndexedAddress(t).value);
    }
  }

  lemma TailIsCanonical(n: string)
    requires Canonical(n) && |n| == 66
    ensures Canonical("0x" + n[26..])
  {
    var x := "0x" + n[26..];
    assert x[2..] == n[2..][24..];
  }

  lemma {:induction false} AddressIsCanonical(v: Option<string>)
    ensures NormalizeAddress(NormalizeAddress(v)) == NormalizeAddress(v)
  {
    hide Lower, Strip, AllHex, Canonical;
    NormalizeIsCanonical(v);
    if NormalizeAddress(v).Some? {
      NormalizeCanonical(NormalizeAddress(v).value);
    }
  }

  /** The Locked branch: a token other than the native one needs its transfer in the same receipt. */
  method CheckLocked(logs: seq<Log>, topics: seq<Option<string>>, data: string, contract: string, block: int)
    returns (r: Reading)
    requires NormalizeAddress(Some(contract)) == Some(contract)
    ensures r == ReadLocked(logs, topics, data, contract, block)
  {
    hide IndexedAddress, NormalizeAddress, NormalizeHex, HexNumber, Records;
    if |topics| < 4 {
      return Skip;
    }
    var payer, payee := IndexedAddress(topics[2]), IndexedAddress(topics[3]);
    if payer.None? || payee.None? || |data| < 256 {
      return Skip;
    }
    var token := NormalizeAddress(Some("0x" + data[24..64]));
    var amount, refund := HexNumber(data[64..128]), HexNumber(data[192..256]);
    if amount.None? || refund.None? {
      return Raise;
    }
    var verified := false;
    if token.Some? && token.value != ZERO_ADDRESS {
      IndexedIsCanonical(topics[2]);
      AddressIsCanonical(Some("0x" + data[24..64]));
      var transfer := ParseAndVerifyErc20Transfer(logs, token, payer, Some(contract), amount.value);
      if transfer.Err? {
        return Raise;
      }
      verified := true;
    }
    return Found(Locked(NormalizeHex(topics[1]), contract, payer.value, payee.value, token, amount.value,
                        NormalizeHex(Some("0x" + data[128..192])), refund.value, block, verified));
  }

  /** One turn of the loop. */
  method CheckLog(rc: Receipt, htlc: Option<string>, log: Log) returns (r: Reading)
    ensures r == ReadLog(rc, htlc, log)
  {
    hide NormalizeAddress, NormalizeHex, ReadLocked, ReadClaimed, ReadRefunded, IsTopic, DataHex, RawNumber;
    if log.Alien? {
      return Skip;
    }
    var contract := NormalizeAddress(log.address);
    if contract.None? || (htlc.Some? && contract.value != htlc.value) || |log.topics| == 0 {
      return Skip;
    }
    var block := RawNumber(rc.block);
    if block.None? {
      return Raise;
    }
    var data := DataHex(log.data);
    if IsTopic(log.topics[0], KLocked) {
      AddressIsCanonical(log.address);
      r := CheckLocked(rc.logs, log.topics, data, contract.value, block.value);
    } else if IsTopic(log.topics[0], KClaimed) {
      r := ReadClaimed(log.topics, data, contract.value, block.value);
    } else if IsTopic(log.topics[0], KRefunded) {
      r := ReadRefunded(log.topics, contract.value, block.value);
    } else {
      r := Skip;
    }
  }

  function KeepContract(events: seq<Event>, cid: Option<string>): seq<Event> {
    if events == [] then []
    else
      var last := events[|events| - 1];
      var before := KeepContract(events[..|events| - 1], cid);
      if cid.Some? ==> last.cid == cid then before + [last] else before
  }

  function KeepKind(events: seq<Event>, kind: Option<string>): seq<Event> {
    if events == [] then []
    else
      var last := events[|events| - 1];
      var before := KeepKind(events[..|events| - 1], kind);
      if kind.Some? && kind.value != "" ==> KindName(last) == Lower(kind.value) then before + [last] else before
  }

  /** parse_and_verify_htlc_event. */
  method ParseAndVerifyHtlcEvent(rc: Receipt, expectedHtlc: Option<string>, expectedCid: Option<string>,
    expectedKind: Option<string>) returns (r: Result<Event>)
    ensures r == Parsed(rc, expectedHtlc, expectedCid, expectedKind)
  {
    hide NormalizeAddress, NormalizeHex, ReadLog, RawNumber, Matches, Calm, KeepKind, KeepContract;
    if RawNumber(rc.status) != Some(1) {
      return Err;
    }
    var htlc := NormalizeAddress(expectedHtlc);
    if htlc.Some? && NormalizeAddress(rc.to).Some? && NormalizeAddress(rc.to) != htlc {
      return Err;
    }
    if |rc.logs| == 0 {
      return Err;
    }
    var cid := NormalizeHex(expectedCid);
    var events: seq<Event> := [];
    NoMatches(rc, htlc);
    for i := 0 to |rc.logs|
      invariant Calm(rc, rc.logs[..i], htlc)
      invariant events == Matches(rc, rc.logs[..i], htlc, None, None)
    {
      MatchesNext(rc, htlc, None, None, i);
      var reading := CheckLog(rc, htlc, rc.logs[i]);
      if reading.Raise? {
        RaiseEnds(rc, htlc, i);
        return Err;
      }
      if reading.Found? {
        events := events + [reading.event];
      }
    }
    assert rc.logs[..|rc.logs|] == rc.logs;
    FiltersAgree(rc, rc.logs, htlc, cid, expectedKind);
    KeepAll(events, expectedKind);
    if cid.Some? {
      events := KeepContract(events, cid);
    }
    KeepAll(events, expectedKind);
    if expectedKind.Some? && expectedKind.value != "" {
      events := KeepKind(events, expectedKind);
    }
    return if |events| != 1 then Err else Ok(events[0]);
  }

  lemma NoMatches(rc: Receipt, htlc: Option<string>)
    ensures Matches(rc, rc.logs[..0], htlc, None, None) == [] && Calm(rc, rc.logs[..0], htlc)
  {
  }

  lemma RaiseEnds(rc: Receipt, htlc: Option<string>, i: nat)
    requires i < |rc.logs| && ReadLog(rc, htlc, rc.logs[i]) == Raise
    ensures !Calm(rc, rc.logs, htlc)
  {
  }

  lemma {:induction false} MatchesNext(rc: Receipt, htlc: Option<string>, cid: Option<string>, kind: Option<string>,
      i: nat)
    requires i < |rc.logs|
    ensures var reading, before := ReadLog(rc, htlc, rc.logs[i]), Matches(rc, rc.logs[..i], htlc, cid, kind);
      Matches(rc, rc.logs[..i + 1], htlc, cid, kind)
        == if reading.Found? && Passes(reading.event, cid, kind) then before + [reading.event] else before
    ensures Calm(rc, rc.logs[..i + 1], htlc) <==> Calm(rc, rc.logs[..i], htlc) && ReadLog(rc, htlc, rc.logs[i]) != Raise
  {
    hide ReadLog, Passes;
    assert rc.logs[..i + 1][..i] == rc.logs[..i];
  }

  /** Filtering afterwards by contract and then by kind leaves the events that pass both. */
  lemma {:induction false} FiltersAgree(rc: Receipt, logs: seq<Log>, htlc: Option<string>, cid: Option<string>,
    kind: Option<string>)
    ensures Matches(rc, logs, htlc, cid, kind) == KeepKind(KeepContract(Matches(rc, logs, htlc, None, None), cid), kind)
  {
    hide ReadLog, Lower, KeepKind, KeepContract, Passes;
    if logs == [] {
      NothingKept(cid, kind);
    } else {
      var init := logs[..|logs| - 1];
      FiltersAgree(rc, init, htlc, cid, kind);
      var all := Matches(rc, init, htlc, None, None);
      var reading := ReadLog(rc, htlc, logs[|logs| - 1]);
      if reading.Found? {
        EverythingPasses(reading.event);
        KeepOneMore(all, reading.event, cid, kind);
      }
    }
  }

  lemma EverythingPasses(e: Event)
    ensures Passes(e, None, None)
  {
  }

  lemma NothingKept(cid: Option<string>, kind: Option<string>)
    ensures KeepKind(KeepContract([], cid), kind) == []
  {
  }

  lemma KeepOneMore(events: seq<Event>, e: Event, cid: Option<string>, kind: Option<string>)
    ensures var kept := KeepKind(KeepContract(events, cid), kind);
      KeepKind(KeepContract(events + [e], cid), kind) == if Passes(e, cid, kind) then kept + [e] else kept
  {
    hide KeepContract, KeepKind, Lower, KindName;
    KeepAppend(events, e, cid, kind);
    KeepAppend(KeepContract(events, cid), e, cid, kind);
  }

  /** A filter that expects nothing keeps everything. */
  lemma {:induction false} KeepAll(events: seq<Event>, kind: Option<string>)
    ensures KeepContract(events, None) == events
    ensures kind.None? || kind.value == "" ==> KeepKind(events, kind) == events
  {
    hide Lower, KindName;
    if events != [] {
      KeepAll(events[..|events| - 1], kind);
    }
  }

  lemma KeepAppend(events: seq<Event>, e: Event, cid: Option<string>, kind: Option<string>)
    ensures KeepContract(events + [e], cid)
      == if cid.Some? ==> e.cid == cid then KeepContract(events, cid) + [e] else KeepContract(events, cid)
    ensures KeepKind(events + [e], kind)
      == if kind.Some? && kind.value != "" ==> KindName(e) == Lower(kind.value)
         then KeepKind(events, kind) + [e] else KeepKind(events, kind)
  {
    hide Lower, KindName;
    assert (events + [e])[..|events|] == events;
  }
}
