/** When the standalone check confirms what the cross-layer verifier accepted. */
module CrossLayerLaws {
  import opened Options
  import opened PyHex
  import opened Receipts
  import opened ReceiptLaws
  import opened AbiRoundTrip
  import opened CrossLayer
  import Settlement

  // ---- normal forms do not depend on case ----

  lemma SpaceKeepsCase(c: char)
    ensures IsSpace(LowerChar(c)) == IsSpace(c) && IsHexChar(LowerChar(c)) == IsHexChar(c)
    ensures LowerChar(LowerChar(c)) == LowerChar(c) && (LowerChar(c) == '0' <==> c == '0')
    ensures LowerChar(c) == 'x' || LowerChar(c) == 'X' <==> c == 'x' || c == 'X'
  {
  }

  lemma {:induction false} StripLeftLower(s: string)
    ensures StripLeft(Lower(s)) == Lower(StripLeft(s))
    decreases |s|
  {
    if s != "" {
      SpaceKeepsCase(s[0]);
      assert Lower(s)[1..] == Lower(s[1..]);
      StripLeftLower(s[1..]);
    }
  }

  lemma {:induction false} StripRightLower(s: string)
    ensures StripRight(Lower(s)) == Lower(StripRight(s))
    decreases |s|
  {
    if s != "" {
      SpaceKeepsCase(s[|s| - 1]);
      assert Lower(s)[..|s| - 1] == Lower(s[..|s| - 1]);
      StripRightLower(s[..|s| - 1]);
    }
  }

  lemma UnprefixedLower(s: string)
    ensures Unprefixed(Lower(s)) == Lower(Unprefixed(s))
  {
    if |s| >= 2 {
      SpaceKeepsCase(s[0]);
      SpaceKeepsCase(s[1]);
      assert Lower(s)[2..] == Lower(s[2..]);
    }
  }

  lemma AllHexLower(s: string)
    ensures AllHex(Lower(s)) == AllHex(s) && Lower(Lower(s)) == Lower(s) && Lower("0" + s) == "0" + Lower(s)
  {
    forall i | 0 <= i < |s|
      ensures IsHexChar(Lower(s)[i]) == IsHexChar(s[i]) && LowerChar(Lower(s)[i]) == Lower(s)[i]
    {
      SpaceKeepsCase(s[i]);
    }
  }

  lemma NormalOfLower(s: string)
    ensures NormalizeHex(Some(Lower(s))) == NormalizeHex(Some(s))
  {
    hide StripLeft, StripRight, Unprefixed, AllHex, Lower;
    StripLeftLower(s);
    StripRightLower(StripLeft(s));
    UnprefixedLower(Strip(s));
    var cleaned := Unprefixed(Strip(s));
    AllHexLower(cleaned);
    AllHexLower("0" + cleaned);
    assert |Lower(cleaned)| == |cleaned|;
  }

  lemma SameNormals(a: string, b: string)
    requires Same(a, b)
    ensures NormalizeHex(Some(a)) == NormalizeHex(Some(b)) && NormalizeAddress(Some(a)) == NormalizeAddress(Some(b))
    ensures Same(Unprefixed(a), Unprefixed(b)) && AssetText(a) == AssetText(b)
  {
    hide Lower, NormalizeHex, Unprefixed;
    NormalOfLower(a);
    NormalOfLower(b);
    UnprefixedLower(a);
    UnprefixedLower(b);
  }

  // ---- confirmation ----

  /** The root as export_merkle_root(...).hex() gives it. */
  predicate RootIsDigest(t: Transcript) {
    t.root.Some? ==> |t.root.value| == 64 && AllHex(t.root.value)
  }

  /** What receipts give: their provenance, no times of lock and claim, and a secret only with a claim. */
  predicate IsReceiptEvidence(s: Evidence) {
    && s.provenance == RpcReceipt && s.lockTime.None? && s.claimTime.None?
    && (Truthy(s.secret) ==> IsClaimed(s.status))
  }

  lemma {:induction false} DigestNormal(digest: HexDigest, hashlock: string)
    requires Same(digest, Unprefixed(hashlock))
    ensures NormalizeHex(Some(hashlock)) == NormalizeHex(Some("0x" + digest)) == Some("0x" + digest)
  {
    hide Lower, NormalizeHex;
    PrefixedIsNormal(digest);
    LowStaysLow(digest);
    NormalOfLower(hashlock);
    UnprefixedLower(hashlock);
    if Prefixed(hashlock) {
      LowerPrefix(hashlock);
    } else {
      BareIsNormal(digest);
    }
  }

  lemma LowerPrefix(s: string)
    requires Prefixed(s)
    ensures Lower(s) == "0x" + Lower(Unprefixed(s))
  {
    assert Lower(s)[2..] == Lower(s[2..]);
  }

  lemma BareIsNormal(digest: HexDigest)
    ensures NormalizeHex(Some(digest)) == Some("0x" + digest)
  {
    hide Strip, Lower, AllHex;
    assert IsLowHex(digest[0]) && IsLowHex(digest[1]) && IsLowHex(digest[63]);
    NothingToStrip(digest);
    LowStaysLow(digest);
    assert Unprefixed(Strip(digest)) == digest;
  }

  /** A root of 64 digits is not taken for a prefixed text. */
  lemma RootKeepsFormat(root: string)
    requires |root| == 64 && AllHex(root)
    ensures Unprefixed(root) == root
  {
    assert IsHexChar(root[1]);
  }

  lemma {:induction false} ContractAnchorHolds(cid: string, anchor: string)
    requires Same(cid, AnchorText(anchor))
    ensures NormalizeHex(Some(cid)) == NormalizeHex(Some(anchor))
  {
    hide Lower, NormalizeHex;
    SameNormals(cid, AnchorText(anchor));
    NormalizeTwice(Some(anchor));
  }

  lemma AnchorsCarryOver(a: Agreement, t: Transcript, s: Evidence, failures: seq<Reason>, anchors: Anchors)
    requires AnchorsHold(a, t, anchors) && RootIsDigest(t)
    ensures ProofAnchorsHold(ArtifactOf(a, t, s, failures), anchors)
    ensures RootFormatHolds(ArtifactOf(a, t, s, failures))
  {
    hide Lower, NormalizeHex, Unprefixed, AnchorText, AllHex;
    if t.root.Some? {
      RootKeepsFormat(t.root.value);
      if Truthy(anchors.root) {
        SameNormals(t.root.value, anchors.root.value);
      }
    }
    if Truthy(anchors.cid) {
      ContractAnchorHolds(a.cid, anchors.cid.value);
    }
  }

  lemma {:induction false} SecretCarriesOver(sha: HashText, a: Agreement, t: Transcript, s: Evidence)
    requires BindingsHold(a, s) && SecretHolds(sha, a, s) && (Truthy(s.secret) ==> IsClaimed(s.status))
    ensures SecretOpens(sha, ArtifactOf(a, t, s, []))
  {
    hide Lower, NormalizeHex, Unprefixed;
    SameNormals(a.hashlock, s.hashlock);
    var proof := ArtifactOf(a, t, s, []);
    assert Target(proof) == NormalizeHex(Some(a.hashlock));
    if Truthy(s.secret) {
      DigestNormal(sha(Unprefixed(s.secret.value)).value, a.hashlock);
    }
  }

  lemma {:induction false} ReceiptEvidenceIsConfirmed(sha: HashText, derive: AddressOf, amountOf: AmountText,
      a: Agreement, t: Transcript, s: Evidence, anchors: Anchors)
    requires Conforms(sha, derive, a, t, s, anchors) && RootIsDigest(t) && IsReceiptEvidence(s)
    ensures Conformant(sha, amountOf, true, ArtifactOf(a, t, s, []), anchors)
  {
    hide Lower, NormalizeHex, NormalizeAddress, Unprefixed, AssetText, SecretOpens, SecretHolds, AnchorsHold,
      ProofAnchorsHold, RootFormatHolds, KeyHolds, LifecycleHolds, Target;
    AnchorsCarryOver(a, t, s, [], anchors);
    SecretCarriesOver(sha, a, t, s);
    SameNormals(a.cid, s.cid);
    SameNormals(a.hashlock, s.hashlock);
    SameNormals(a.asset, s.asset);
  }

  /** Only transactions give evidence that can conform, and they give receipt evidence. */
  lemma {:induction false} ConformanceNeedsReceipts(sha: HashText, derive: AddressOf, decimal: nat -> string,
      a: Agreement, t: Transcript, src: Source, anchors: Anchors)
    requires Gather(src, anchors.cid, decimal).Some?
    requires Conforms(sha, derive, a, t, Gather(src, anchors.cid, decimal).value, anchors)
    ensures src.Transactions? && IsReceiptEvidence(Gather(src, anchors.cid, decimal).value)
  {
    hide TermsHold, AnchorsHold, LockEvent, Settlement.Settled, Settlement.FetchEvent;
  }

  /**
   * Every artifact that the cross-layer verifier calls conformant is valid and conformant to the standalone check,
   * under the same anchors and without any, whatever the source of its evidence.
   */
  lemma {:induction false} ConformantIsConfirmed(sha: HashText, derive: AddressOf, amountOf: AmountText,
    decimal: nat -> string, a: Agreement, t: Transcript, src: Source, anchors: Anchors, other: Anchors)
    requires Gather(src, anchors.cid, decimal).Some? && RootIsDigest(t)
    requires Conforms(sha, derive, a, t, Gather(src, anchors.cid, decimal).value, anchors)
    requires other == anchors || other == Anchors(None, None, None)
    ensures Conformant(sha, amountOf, true, ArtifactOf(a, t, Gather(src, anchors.cid, decimal).value, []), other)
  {
    hide Conforms, Conformant, Gather, IsReceiptEvidence;
    var s := Gather(src, anchors.cid, decimal).value;
    ConformanceNeedsReceipts(sha, derive, decimal, a, t, src, anchors);
    NoAnchors(sha, derive, a, t, s, anchors);
    ReceiptEvidenceIsConfirmed(sha, derive, amountOf, a, t, s, other);
  }

  lemma NoAnchors(sha: HashText, derive: AddressOf, a: Agreement, t: Transcript, s: Evidence, anchors: Anchors)
    requires Conforms(sha, derive, a, t, s, anchors)
    ensures Conforms(sha, derive, a, t, s, Anchors(None, None, None))
  {
    hide TermsHold, Lower, NormalizeHex;
  }

  /**
   * What a conformant verdict says of the chain: a successful receipt of the lock transaction has the one Locked event
   * with the agreed hashlock, amount and asset, and the agreed id where its id could be read; a token's transfer of
   * that amount is in the same receipt; and if a claim was given, its Claimed event carries a secret that opens the
   * agreed hashlock, and the agreed id where the lock's could not be read.
   */
  lemma {:induction false} ConformantIsOnChain(sha: HashText, derive: AddressOf, decimal: nat -> string, a: Agreement,
    t: Transcript, src: Source, anchors: Anchors) returns (rc: Receipt, lock: Event, claim: Option<Event>)
    requires Gather(src, anchors.cid, decimal).Some?
    requires Conforms(sha, derive, a, t, Gather(src, anchors.cid, decimal).value, anchors)
    ensures src.Transactions? && Settlement.Given(src.lockTx).Some?
    ensures Settlement.Fetch(src.rpc, Settlement.Given(src.lockTx).value) == Some(rc)
    ensures Parsed(rc, src.htlc, anchors.cid, Some("Locked")) == Ok(lock) && lock.Locked?
    ensures a.amount == decimal(lock.amount) && lock.token.Some? && Same(a.asset, lock.token.value)
    ensures lock.hashlock.Some? && Same(a.hashlock, lock.hashlock.value)
    ensures lock.cid.Some? ==> Same(a.cid, lock.cid.value)
    ensures lock.token.value != ZERO_ADDRESS ==>
      Records(rc.logs, Transfer(lock.token.value, lock.payer, lock.contract, lock.amount))
    ensures claim.Some? <==> Settlement.Given(src.claimTx).Some?
    ensures claim.Some? ==>
      && Settlement.Settled(src.rpc, Settlement.Given(src.claimTx).value, lock, anchors.cid, "Claimed")
           == Ok(claim.value)
      && claim.value.Claimed? && claim.value.secret.Some?
      && OpensHashlock(sha, claim.value.secret.value, a.hashlock)
      && (lock.cid.None? ==> claim.value.cid.Some? && Same(a.cid, claim.value.cid.value))
  {
    hide Lower, NormalizeHex, NormalizeAddress, Unprefixed, Parsed, AnchorsHold, KeyHolds, TransferHolds,
      LifecycleHolds, TimesHold, Settlement.Settled, Settlement.Fetch, Records;
    var s := Gather(src, anchors.cid, decimal).value;
    ConformanceNeedsReceipts(sha, derive, decimal, a, t, src, anchors);
    lock := LockEvent(src, anchors.cid).value;
    rc := Settlement.Fetch(src.rpc, Settlement.Given(src.lockTx).value).value;
    LockedTokenWasTransferred(rc, src.htlc, anchors.cid, Some("Locked"), lock);
    var tx := Settlement.Given(src.claimTx);
    claim := if tx.None? then None
      else Some(Settlement.Settled(src.rpc, tx.value, lock, anchors.cid, "Claimed").value);
  }

  /** The digest of a revealed secret is the hashlock, up to prefix and letter case. */
  predicate OpensHashlock(sha: HashText, secret: string, hashlock: string) {
    && sha(Unprefixed(secret)).Some?
    && Same(sha(Unprefixed(secret)).value, Unprefixed(hashlock))
  }

  // ---- self-attested evidence ----

  /** A secret in the evidence opens the agreed hashlock, as far as that can be read. */
  predicate SecretFits(sha: HashText, secret: string, hashlock: string) {
    && sha(Unprefixed(secret)).Some?
    && (NormalizeHex(Some(hashlock)).Some? ==>
          NormalizeHex(Some(hashlock)) == Some("0x" + sha(Unprefixed(secret)).value))
  }

  lemma {:induction false} SecretOpensExactly(sha: HashText, a: Agreement, t: Transcript, s: Evidence,
      failures: seq<Reason>)
    requires BindingsHold(a, s) && SecretHolds(sha, a, s)
    ensures SecretOpens(sha, ArtifactOf(a, t, s, failures))
      <==> (Truthy(s.secret) && !IsClaimed(s.status) ==> SecretFits(sha, s.secret.value, a.hashlock))
  {
    hide Lower, NormalizeHex, Unprefixed;
    SameNormals(a.hashlock, s.hashlock);
    assert Target(ArtifactOf(a, t, s, failures)) == NormalizeHex(Some(a.hashlock));
    if Truthy(s.secret) && sha(Unprefixed(s.secret.value)).Some? {
      PrefixedIsNormal(sha(Unprefixed(s.secret.value)).value);
      if IsClaimed(s.status) {
        DigestNormal(sha(Unprefixed(s.secret.value)).value, a.hashlock);
      }
    }
  }

  /**
   * The artifact written for a dictionary is never conformant to the standalone check. It is valid exactly when
   * anchors, transcript and terms held, and three things that the cross-layer verifier does not look at: no transfer is
   * claimed to be verified, no claim precedes the lock, and a secret given without a claim fits the hashlock.
   */
  lemma {:induction false} SelfAttestedIsValid(sha: HashText, derive: AddressOf, amountOf: AmountText, a: Agreement,
      t: Transcript, s: Evidence, failures: seq<Reason>, anchors: Anchors)
    requires s.provenance == SelfAttested && RootIsDigest(t) && failures != []
    requires OnlyProvenance(failures) <==> Agrees(sha, derive, a, t, s, anchors)
    ensures var proof := ArtifactOf(a, t, s, failures);
      && !Conformant(sha, amountOf, true, proof, anchors)
      && (Valid(sha, amountOf, true, proof, anchors)
          <==>
          && Agrees(sha, derive, a, t, s, anchors)
          && (IsToken(a.asset) || IsToken(s.asset) ==> !s.transferVerified)
          && (s.lockTime.Some? && s.claimTime.Some? ==> s.lockTime.value <= s.claimTime.value)
          && (Truthy(s.secret) && !IsClaimed(s.status) ==> SecretFits(sha, s.secret.value, a.hashlock)))
  {
    hide Lower, NormalizeHex, NormalizeAddress, Unprefixed, AssetText, SecretOpens, SecretHolds, AnchorsHold, IsToken,
      ProofAnchorsHold, RootFormatHolds, KeyHolds, LifecycleHolds, SecretFits, OnlyProvenance, AllHex;
    if Agrees(sha, derive, a, t, s, anchors) {
      AnchorsCarryOver(a, t, s, failures, anchors);
      SecretOpensExactly(sha, a, t, s, failures);
      SameNormals(a.cid, s.cid);
      SameNormals(a.hashlock, s.hashlock);
      SameNormals(a.asset, s.asset);
    }
  }

  // ---- what a conformant verdict says, exactly ----

  /** The caller's anchors, each where it is given: the id compared in its normal form where it has one. */
  predicate Anchored(a: Agreement, t: Transcript, anchors: Anchors) {
    && (Truthy(anchors.room) ==> a.room == anchors.room.value)
    && (Truthy(anchors.root) && Truthy(t.root) ==> Lower(t.root.value) == Lower(anchors.root.value))
    && (Truthy(anchors.cid) ==>
          if NormalizeHex(anchors.cid).Some? then Lower(a.cid) == NormalizeHex(anchors.cid).value
          else Lower(a.cid) == Lower(anchors.cid.value))
  }

  /** The transactions of a source give this lock and this settling event, on the chain the caller expects. */
  predicate EventsOf(src: Source, cid: Option<string>, lock: Event, settled: Option<Event>) {
    && src.Transactions? && src.expectedChain == Some(src.chain)
    && Settlement.Given(src.lockTx).Some? && lock.Locked?
    && Settlement.FetchEvent(src.rpc, Settlement.Given(src.lockTx).value, src.htlc, cid, "Locked") == Ok(lock)
    && (Settlement.Given(src.claimTx).None? || Settlement.Given(src.refundTx).None?)
    && (settled.None? <==> Settlement.Given(src.claimTx).None? && Settlement.Given(src.refundTx).None?)
    && (Settlement.Given(src.claimTx).Some? ==>
          && Settlement.Settled(src.rpc, Settlement.Given(src.claimTx).value, lock, cid, "Claimed") == Ok(settled.value)
          && settled.value.Claimed?)
    && (Settlement.Given(src.refundTx).Some? ==>
          Settlement.Settled(src.rpc, Settlement.Given(src.refundTx).value, lock, cid, "Refunded") == Ok(settled.value))
  }

  /** Where a payment key is given, the address derived from it is this one. */
  predicate KeyIsOf(derive: AddressOf, key: Option<string>, address: string) {
    Truthy(key) ==> derive(key.value).Some? && Lower(derive(key.value).value) == Lower(address)
  }

  /** The agreement is what was mined: id, hashlock, amount, asset and keys, and the claimed secret opens it. */
  predicate AgreedOnChain(sha: HashText, derive: AddressOf, decimal: nat -> string, a: Agreement, lock: Event,
      settled: Option<Event>)
    requires lock.Locked?
  {
    var cid := if lock.cid.None? && settled.Some? then settled.value.cid else lock.cid;
    && cid.Some? && Lower(a.cid) == Lower(cid.value)
    && lock.hashlock.Some? && Lower(a.hashlock) == Lower(lock.hashlock.value)
    && a.amount == decimal(lock.amount)
    && lock.token.Some? && Lower(a.asset) == Lower(lock.token.value)
    && KeyIsOf(derive, a.payerKey, lock.payer) && KeyIsOf(derive, a.payeeKey, lock.payee)
    && (settled.Some? && settled.value.Claimed? ==>
          settled.value.secret.Some? && OpensHashlock(sha, settled.value.secret.value, a.hashlock))
  }

  /** What a parsed lock always has: its hashlock and parties are not empty, and its token, if foreign, was moved. */
  lemma {:induction false} LockFields(rc: Receipt, htlc: Option<string>, cid: Option<string>, lock: Event)
    requires Parsed(rc, htlc, cid, Some("Locked")) == Ok(lock) && lock.Locked?
    ensures |lock.payer| == |lock.payee| == 42
    ensures lock.hashlock.Some? ==> lock.hashlock.value != ""
    ensures lock.token.Some? ==> (lock.transferVerified <==> IsToken(lock.token.value))
  {
    hide NormalizeHex, NormalizeAddress, Parsed, Calm, Guarded, Only, ReadLog, Records;
    ParsedMeansOne(rc, htlc, cid, Some("Locked"), lock);
    var filter := NormalizeAddress(htlc);
    var i: nat :| i < |rc.logs| && ReadLog(rc, filter, rc.logs[i]) == Found(lock);
    LockLogFields(rc, filter, rc.logs[i], lock);
  }

  lemma {:induction false} LockLogFields(rc: Receipt, htlc: Option<string>, log: Log, lock: Event)
    requires ReadLog(rc, htlc, log) == Found(lock) && lock.Locked?
    ensures |lock.payer| == |lock.payee| == 42
    ensures lock.hashlock.Some? ==> lock.hashlock.value != ""
    ensures lock.token.Some? ==> (lock.transferVerified <==> IsToken(lock.token.value))
  {
    hide NormalizeHex, NormalizeAddress, IndexedAddress, IsTopic, DataHex, HexNumber, RawNumber, Records;
    FieldsOfLock(rc, htlc, log, lock);
    IndexedIsPadded(log.topics[2]);
    IndexedIsPadded(log.topics[3]);
    var data := DataHex(log.data);
    if lock.hashlock.Some? {
      NormalIsPrefixed(Some("0x" + data[128..192]));
    }
    AddressIsCanonical(Some("0x" + data[24..64]));
  }

  lemma {:induction false} SecretIsNotEmpty(rc: Receipt, htlc: Option<string>, cid: Option<string>, claim: Event)
    requires Parsed(rc, htlc, cid, Some("Claimed")) == Ok(claim) && claim.Claimed? && claim.secret.Some?
    ensures claim.secret.value != ""
  {
    hide NormalizeHex, NormalizeAddress, Parsed, Calm, Guarded, Only, ReadLog, DataHex;
    ParsedMeansOne(rc, htlc, cid, Some("Claimed"), claim);
    var filter := NormalizeAddress(htlc);
    var i: nat :| i < |rc.logs| && ReadLog(rc, filter, rc.logs[i]) == Found(claim);
    SecretOfClaim(rc, filter, rc.logs[i], claim);
    NormalIsPrefixed(Some("0x" + DataHex(rc.logs[i].data)[..64]));
  }

  lemma {:induction false} SecretOfClaim(rc: Receipt, htlc: Option<string>, log: Log, claim: Event)
    requires ReadLog(rc, htlc, log) == Found(claim) && claim.Claimed?
    ensures log.Log? && |DataHex(log.data)| >= 64
    ensures claim.secret == NormalizeHex(Some("0x" + DataHex(log.data)[..64]))
  {
    hide NormalizeHex, NormalizeAddress, IsTopic, DataHex, RawNumber, Records, IndexedAddress, HexNumber;
  }

  /** What the source's events gather into. */
  lemma {:induction false} GatheredFrom(src: Source, cid: Option<string>, decimal: nat -> string, lock: Event,
      settled: Option<Event>)
    requires EventsOf(src, cid, lock, settled)
    ensures var id := if lock.cid.None? && settled.Some? then settled.value.cid else lock.cid;
      var g := Gather(src, cid, decimal);
      && (g.Some? <==> id.Some? && lock.token.Some?)
      && (g.Some? ==>
            && g.value.provenance == RpcReceipt && g.value.cid == id.value && g.value.asset == lock.token.value
            && g.value.amount == decimal(lock.amount) && g.value.payer == Some(lock.payer)
            && g.value.payee == Some(lock.payee) && g.value.transferVerified == lock.transferVerified
            && g.value.hashlock == (if lock.hashlock.Some? then lock.hashlock.value else "")
            && g.value.lockTime.None? && g.value.claimTime.None?
            && g.value.claimTx == src.claimTx && g.value.refundTx == src.refundTx
            && g.value.status == (if Settlement.Given(src.claimTx).Some? then "claimed"
                                  else if settled.Some? then "refunded" else "locked")
            && (Settlement.Given(src.claimTx).Some? ==> g.value.secret == settled.value.secret))
  {
    hide Settlement.FetchEvent, Settlement.Settled, Settlement.Given;
  }

  /** A source that gathers evidence with its provenance from receipts has such events. */
  lemma {:induction false} GatheredHasEvents(src: Source, cid: Option<string>, decimal: nat -> string)
    returns (lock: Event, settled: Option<Event>)
    requires src.Transactions? && Gather(src, cid, decimal).Some?
    ensures EventsOf(src, cid, lock, settled)
  {
    hide Settlement.FetchEvent, Settlement.Settled, Settlement.Given;
    lock := LockEvent(src, cid).value;
    var claim, refund := Settlement.Given(src.claimTx), Settlement.Given(src.refundTx);
    settled := if claim.Some? then Some(Settlement.Settled(src.rpc, claim.value, lock, cid, "Claimed").value)
      else if refund.Some? then Some(Settlement.Settled(src.rpc, refund.value, lock, cid, "Refunded").value)
      else None;
  }

  lemma AnchorsAreAnchored(a: Agreement, t: Transcript, anchors: Anchors)
    ensures AnchorsHold(a, t, anchors) <==> Anchored(a, t, anchors)
  {
    hide NormalizeHex;
    if Truthy(anchors.cid) && NormalizeHex(anchors.cid).Some? {
      NormalIsPrefixed(anchors.cid);
      var n := NormalizeHex(anchors.cid).value;
      LowerPrefixed(n[2..]);
      LowStaysLow(n[2..]);
    }
  }

  /** On given events, conformance is anchors, transcript and agreement, and nothing else. */
  lemma {:induction false} ConformsOnEvents(sha: HashText, derive: AddressOf, decimal: nat -> string, a: Agreement,
      t: Transcript, src: Source, anchors: Anchors, lock: Event, settled: Option<Event>)
    requires EventsOf(src, anchors.cid, lock, settled)
    ensures
      var g := Gather(src, anchors.cid, decimal);
      g.Some? && Conforms(sha, derive, a, t, g.value, anchors)
      <==>
      && Anchored(a, t, anchors) && t.signatures && t.inclusion && t.anomalies == 0
      && AgreedOnChain(sha, derive, decimal, a, lock, settled)
  {
    hide NormalizeHex, NormalizeAddress, Unprefixed, Lower, AnchorsHold, Anchored, Gather, Settlement.Settled,
      Settlement.Fetch, Parsed, EventsOf;
    AnchorsAreAnchored(a, t, anchors);
    GatheredFrom(src, anchors.cid, decimal, lock, settled);
    EventFacts(src, anchors.cid, lock, settled);
    if Gather(src, anchors.cid, decimal).Some? {
      var s := Gather(src, anchors.cid, decimal).value;
      if Same(a.asset, s.asset) {
        SameNormals(a.asset, s.asset);
      }
    }
  }

  /** What the events of a source always have. */
  lemma {:induction false} EventFacts(src: Source, cid: Option<string>, lock: Event, settled: Option<Event>)
    requires EventsOf(src, cid, lock, settled)
    ensures |lock.payer| == |lock.payee| == 42
    ensures lock.hashlock.Some? ==> lock.hashlock.value != ""
    ensures lock.token.Some? ==> (lock.transferVerified <==> IsToken(lock.token.value))
    ensures settled.Some? ==> (settled.value.Claimed? <==> Settlement.Given(src.claimTx).Some?)
    ensures settled.Some? && settled.value.Claimed? && settled.value.secret.Some? ==>
      settled.value.secret.value != ""
    ensures src.Transactions?
    ensures Settlement.Given(src.claimTx).None? <==> !Truthy(src.claimTx)
    ensures Settlement.Given(src.refundTx).None? <==> !Truthy(src.refundTx)
    ensures Settlement.Given(src.claimTx).Some? ==> settled.Some? && Settlement.Given(src.refundTx).None?
    ensures Settlement.Given(src.refundTx).Some? ==> settled.Some?
    ensures settled.Some? ==> Settlement.Given(src.claimTx).Some? || Settlement.Given(src.refundTx).Some?
  {
    hide NormalizeHex, NormalizeAddress, IsToken, Parsed, Settlement.Fetch, Settlement.IsKind;
    LockFields(Settlement.Fetch(src.rpc, Settlement.Given(src.lockTx).value).value, src.htlc, cid, lock);
    var expected := if lock.cid.Some? then lock.cid else cid;
    if Settlement.Given(src.claimTx).Some? && settled.value.secret.Some? {
      SecretIsNotEmpty(Settlement.Fetch(src.rpc, Settlement.Given(src.claimTx).value).value, Some(lock.contract),
                       expected, settled.value);
    }
    if Settlement.Given(src.refundTx).Some? {
      RefundIsRefunded(src.rpc, Settlement.Given(src.refundTx).value, lock, cid);
    }
  }

  lemma {:induction false} RefundIsRefunded(rpc: Settlement.Rpc, tx: string, lock: Event, cid: Option<string>)
    requires Settlement.Settled(rpc, tx, lock, cid, "Refunded").Ok?
    ensures Settlement.Settled(rpc, tx, lock, cid, "Refunded").value.Refunded?
  {
    hide NormalizeHex, NormalizeAddress, Settlement.FetchEvent;
    var expected := if lock.cid.Some? then lock.cid else cid;
    Settlement.EventKind(rpc, tx, Some(lock.contract), expected, KRefunded,
                         Settlement.Settled(rpc, tx, lock, cid, "Refunded").value);
  }

  /**
   * Conformance, from the caller's inputs: the verdict is reached and conformant if and only if the anchors given hold,
   * the transcript is signed, included and without anomalies, and the transactions give a lock and at most one
   * settlement that are what was agreed, each payment key given deriving its party's address.
   */
  lemma {:induction false} ConformsExactly(sha: HashText, derive: AddressOf, decimal: nat -> string, a: Agreement,
      t: Transcript, src: Source, anchors: Anchors)
    ensures
      Gather(src, anchors.cid, decimal).Some?
      && Conforms(sha, derive, a, t, Gather(src, anchors.cid, decimal).value, anchors)
      <==>
      && Anchored(a, t, anchors) && t.signatures && t.inclusion && t.anomalies == 0
      && exists lock, settled ::
           EventsOf(src, anchors.cid, lock, settled) && AgreedOnChain(sha, derive, decimal, a, lock, settled)
  {
    hide Conforms, Gather, EventsOf, AgreedOnChain, Anchored, IsReceiptEvidence;
    if Gather(src, anchors.cid, decimal).Some?
       && Conforms(sha, derive, a, t, Gather(src, anchors.cid, decimal).value, anchors) {
      ConformanceNeedsReceipts(sha, derive, decimal, a, t, src, anchors);
      var lock, settled := GatheredHasEvents(src, anchors.cid, decimal);
      EventsLock(src, anchors.cid, lock, settled);
      ConformsOnEvents(sha, derive, decimal, a, t, src, anchors, lock, settled);
    }
    forall lock, settled | EventsOf(src, anchors.cid, lock, settled)
      ensures lock.Locked?
    {
      EventsLock(src, anchors.cid, lock, settled);
    }
    if Anchored(a, t, anchors) && t.signatures && t.inclusion && t.anomalies == 0
       && exists lock, settled :: EventsOf(src, anchors.cid, lock, settled)
                                  && AgreedOnChain(sha, derive, decimal, a, lock, settled) {
      var lock, settled :| EventsOf(src, anchors.cid, lock, settled)
                           && AgreedOnChain(sha, derive, decimal, a, lock, settled);
      ConformsOnEvents(sha, derive, decimal, a, t, src, anchors, lock, settled);
    }
  }

  lemma EventsLock(src: Source, cid: Option<string>, lock: Event, settled: Option<Event>)
    requires EventsOf(src, cid, lock, settled)
    ensures lock.Locked?
  {
  }

  // ---- artifacts edited after the verdict ----

  /** One edited text against what the settlement says: left out, or of the same normal form. */
  predicate StillNormal(edited: string, settled: string) {
    edited == "" || NormalizeHex(Some(edited)) == NormalizeHex(Some(settled))
  }

  /** Evidence whose asset is an address in normal form, with its transfer seen exactly if that is a token. */
  predicate IsCleanEvidence(s: Evidence) {
    && s.cid != "" && NormalizeAddress(Some(s.asset)) == Some(s.asset)
    && (IsToken(s.asset) <==> s.transferVerified)
  }

  lemma {:induction false} EditedAsset(edited: string, s: Evidence)
    requires IsCleanEvidence(s)
    ensures var a, b := AssetText(edited), AssetText(s.asset);
      (a != "" && b != "" ==> a == b) && (IsToken(edited) || IsToken(s.asset) ==> s.transferVerified)
      <==> edited == "" || NormalizeAddress(Some(edited)) == NormalizeAddress(Some(s.asset))
  {
    hide NormalizeHex, Lower;
    EmptyIsNothing();
    NormalOfLower(edited);
    assert AssetText(s.asset) == s.asset;
    NormalIsPrefixed(Some(s.asset));
    if edited != "" {
      assert |Lower(edited)| == |edited|;
      if NormalizeAddress(Some(edited)).Some? {
        NormalIsPrefixed(Some(edited));
      }
    }
  }

  lemma EmptyIsNothing()
    ensures NormalizeHex(Some("")).None? && NormalizeAddress(Some("")).None? && Lower("") == ""
  {
  }

  lemma {:induction false} EditedHashlock(sha: HashText, edited: Proof)
    requires SecretOpens(sha, edited.(hashlock := edited.settlement.hashlock)) && edited.settlement.hashlock != ""
    ensures NormalsAgree(edited.hashlock, edited.settlement.hashlock)
      <==> StillNormal(edited.hashlock, edited.settlement.hashlock)
    ensures StillNormal(edited.hashlock, edited.settlement.hashlock) ==> SecretOpens(sha, edited)
  {
    hide NormalizeHex, Unprefixed, Lower;
  }

  lemma {:induction false} EditedRoot(edited: Proof, anchors: Anchors)
    requires RootFormatHolds(edited)
    ensures ProofAnchorsHold(edited, anchors)
      <==>
      && (Truthy(anchors.room) ==> edited.room == anchors.room.value)
      && (Truthy(anchors.root) && edited.root.Some? ==>
            Lower(Unprefixed(edited.root.value)) == Lower(Unprefixed(anchors.root.value)))
      && (Truthy(anchors.cid) && edited.cid != "" ==> NormalizeHex(Some(edited.cid)) == NormalizeHex(anchors.cid))
  {
    hide NormalizeHex, Unprefixed, Lower, AllHex;
  }

  /** A conformant verdict on receipts: the secret opens the settlement's own hashlock too. */
  lemma {:induction false} SettlementSecretOpens(sha: HashText, derive: AddressOf, a: Agreement, t: Transcript,
      s: Evidence, anchors: Anchors)
    requires Conforms(sha, derive, a, t, s, anchors) && IsReceiptEvidence(s)
    ensures s.hashlock != "" && SecretOpens(sha, ArtifactOf(a, t, s, []).(hashlock := s.hashlock))
  {
    hide NormalizeHex, Unprefixed, Lower, AnchorsHold, NormalizeAddress;
    SecretCarriesOver(sha, a, t, s);
    SameNormals(a.hashlock, s.hashlock);
  }

  lemma {:induction false} EditedConforms(sha: HashText, derive: AddressOf, amountOf: AmountText,
      a: Agreement, t: Transcript, s: Evidence, edited: Proof, anchors: Anchors)
    requires Conforms(sha, derive, a, t, s, Anchors(None, None, None)) && IsReceiptEvidence(s) && IsCleanEvidence(s)
    requires var made := ArtifactOf(a, t, s, []);
      edited == made.(room := edited.room, cid := edited.cid, hashlock := edited.hashlock, amount := edited.amount,
                      asset := edited.asset, root := edited.root)
    ensures Conformant(sha, amountOf, true, edited, anchors)
      <==>
      && StillNormal(edited.cid, s.cid)
      && StillNormal(edited.hashlock, s.hashlock)
      && (amountOf(edited.amount).None? || amountOf(s.amount).None? || amountOf(edited.amount) == amountOf(s.amount))
      && (edited.asset == "" || NormalizeAddress(Some(edited.asset)) == NormalizeAddress(Some(s.asset)))
      && (edited.root.Some? ==> |Unprefixed(edited.root.value)| == 64 && AllHex(Unprefixed(edited.root.value)))
      && (Truthy(anchors.room) ==> edited.room == anchors.room.value)
      && (Truthy(anchors.root) && edited.root.Some? ==>
            Lower(Unprefixed(edited.root.value)) == Lower(Unprefixed(anchors.root.value)))
      && (Truthy(anchors.cid) && edited.cid != "" ==> NormalizeHex(Some(edited.cid)) == NormalizeHex(anchors.cid))
  {
    hide NormalizeHex, NormalizeAddress, Unprefixed, Lower, AllHex, AssetText, IsToken, SecretOpens, Target, TermsHold,
      AnchorsHold, ProofAnchorsHold, RootFormatHolds, NormalsAgree, StillNormal;
    SettlementSecretOpens(sha, derive, a, t, s, Anchors(None, None, None));
    EditedSecret(sha, ArtifactOf(a, t, s, []), edited);
    EditedHashlock(sha, edited);
    EditedCid(edited);
    EditedAsset(edited.asset, s);
    EditedFormat(edited);
    if RootFormatHolds(edited) {
      EditedRoot(edited, anchors);
    }
  }

  lemma EditedSecret(sha: HashText, made: Proof, edited: Proof)
    requires SecretOpens(sha, made.(hashlock := made.settlement.hashlock)) && edited.settlement == made.settlement
    ensures SecretOpens(sha, edited.(hashlock := edited.settlement.hashlock))
  {
    hide NormalizeHex, Unprefixed;
  }

  lemma EditedCid(edited: Proof)
    requires edited.settlement.cid != ""
    ensures NormalsAgree(edited.cid, edited.settlement.cid) <==> StillNormal(edited.cid, edited.settlement.cid)
  {
    hide NormalizeHex;
  }

  lemma EditedFormat(edited: Proof)
    ensures RootFormatHolds(edited) <==>
      (edited.root.Some? ==> |Unprefixed(edited.root.value)| == 64 && AllHex(Unprefixed(edited.root.value)))
  {
    hide Unprefixed, AllHex;
  }

  lemma {:induction false} GatheredIsClean(sha: HashText, derive: AddressOf, decimal: nat -> string, a: Agreement,
      t: Transcript, src: Source, anchors: Anchors)
    requires Gather(src, anchors.cid, decimal).Some?
    requires Conforms(sha, derive, a, t, Gather(src, anchors.cid, decimal).value, anchors)
    ensures IsReceiptEvidence(Gather(src, anchors.cid, decimal).value)
    ensures IsCleanEvidence(Gather(src, anchors.cid, decimal).value)
  {
    hide Conforms, Gather, IsReceiptEvidence, NormalizeAddress, NormalizeHex;
    ConformanceNeedsReceipts(sha, derive, decimal, a, t, src, anchors);
    var lock, settled := GatheredHasEvents(src, anchors.cid, decimal);
    GatheredFrom(src, anchors.cid, decimal, lock, settled);
    EventFacts(src, anchors.cid, lock, settled);
    EventTexts(src, anchors.cid, lock, settled);
  }

  /** Ids and tokens of events are in normal form. */
  lemma {:induction false} EventTexts(src: Source, cid: Option<string>, lock: Event, settled: Option<Event>)
    requires EventsOf(src, cid, lock, settled)
    ensures lock.cid.Some? ==> lock.cid.value != ""
    ensures settled.Some? && settled.value.cid.Some? ==> settled.value.cid.value != ""
    ensures lock.token.Some? ==> NormalizeAddress(lock.token) == lock.token
  {
    hide NormalizeAddress, NormalizeHex, Settlement.FetchEvent, Settlement.IsKind;
    var lockTx, claimTx := Settlement.Given(src.lockTx).value, Settlement.Given(src.claimTx);
    Settlement.EventKind(src.rpc, lockTx, src.htlc, cid, KLocked, lock);
    LockToken(src.rpc, lockTx, src.htlc, cid, lock);
    NormalIsNotEmpty(lock.cid);
    if settled.Some? {
      var expected := if lock.cid.Some? then lock.cid else cid;
      var tx := if claimTx.Some? then claimTx.value else Settlement.Given(src.refundTx).value;
      Settlement.EventKind(src.rpc, tx, Some(lock.contract), expected, if claimTx.Some? then KClaimed else KRefunded,
                           settled.value);
      NormalIsNotEmpty(settled.value.cid);
    }
  }

  lemma NormalIsNotEmpty(v: Option<string>)
    ensures v.Some? && NormalizeHex(v) == v ==> v.value != ""
  {
    hide NormalizeHex;
    if v.Some? && NormalizeHex(v) == v {
      NormalIsPrefixed(v);
    }
  }

  lemma {:induction false} LockToken(rpc: Settlement.Rpc, tx: string, htlc: Option<string>, cid: Option<string>,
      lock: Event)
    requires Settlement.FetchEvent(rpc, tx, htlc, cid, "Locked") == Ok(lock) && lock.Locked?
    ensures lock.token.Some? ==> NormalizeAddress(lock.token) == lock.token
  {
    hide NormalizeAddress, NormalizeHex, Parsed, Calm, Guarded, Only, ReadLog, DataHex, HexNumber, IndexedAddress,
      IsTopic;
    var rc := Settlement.Fetch(rpc, tx).value;
    ParsedMeansOne(rc, htlc, cid, Some("Locked"), lock);
    var filter := NormalizeAddress(htlc);
    var i: nat :| i < |rc.logs| && ReadLog(rc, filter, rc.logs[i]) == Found(lock);
    FieldsOfLock(rc, filter, rc.logs[i], lock);
    AddressIsCanonical(Some("0x" + DataHex(rc.logs[i].data)[24..64]));
  }

  /**
   * What the standalone check makes of a conformant artifact whose agreement was edited afterwards: it still calls it
   * conformant exactly when each edited member is left out or says the same as the settlement, the root is still 32
   * bytes of hex, and the caller's anchors hold of the edited members. An edited room is caught by its anchor only.
   */
  lemma {:induction false} EditedArtifactConforms(sha: HashText, derive: AddressOf, amountOf: AmountText,
      decimal: nat -> string, a: Agreement, t: Transcript, src: Source, anchors: Anchors, edited: Proof, other: Anchors)
    requires Gather(src, anchors.cid, decimal).Some?
    requires Conforms(sha, derive, a, t, Gather(src, anchors.cid, decimal).value, anchors)
    requires var made := ArtifactOf(a, t, Gather(src, anchors.cid, decimal).value, []);
      edited == made.(room := edited.room, cid := edited.cid, hashlock := edited.hashlock, amount := edited.amount,
                      asset := edited.asset, root := edited.root)
    ensures var s := Gather(src, anchors.cid, decimal).value;
      Conformant(sha, amountOf, true, edited, other)
      <==>
      && StillNormal(edited.cid, s.cid)
      && StillNormal(edited.hashlock, s.hashlock)
      && (amountOf(edited.amount).None? || amountOf(s.amount).None? || amountOf(edited.amount) == amountOf(s.amount))
      && (edited.asset == "" || NormalizeAddress(Some(edited.asset)) == NormalizeAddress(Some(s.asset)))
      && (edited.root.Some? ==> |Unprefixed(edited.root.value)| == 64 && AllHex(Unprefixed(edited.root.value)))
      && (Truthy(other.room) ==> edited.room == other.room.value)
      && (Truthy(other.root) && edited.root.Some? ==>
            Lower(Unprefixed(edited.root.value)) == Lower(Unprefixed(other.root.value)))
      && (Truthy(other.cid) && edited.cid != "" ==> NormalizeHex(Some(edited.cid)) == NormalizeHex(other.cid))
  {
    hide Conforms, Conformant, Gather, StillNormal, NormalizeAddress, NormalizeHex, Unprefixed, Lower, AllHex,
      IsReceiptEvidence, IsCleanEvidence;
    GatheredIsClean(sha, derive, decimal, a, t, src, anchors);
    var s := Gather(src, anchors.cid, decimal).value;
    NoAnchors(sha, derive, a, t, s, anchors);
    EditedConforms(sha, derive, amountOf, a, t, s, edited, other);
  }
}
