/** The cross-layer verdict on an agreement and its settlement, and the standalone check of the artifact it leaves. */
module CrossLayer {
  import opened Options
  import opened PyHex
  import opened Receipts
  import Settlement

  /** sha256(bytes.fromhex(text)) in hex; None is the exception on text that is not hex. */
  type HexDigest = s: string | |s| == 64 && AllLow(s) witness seq(64, _ => '0')

  type HashText = string -> Option<HexDigest>

  /** secp256k1_pubkey_to_address; None is the exception on an invalid key. */
  type AddressOf = string -> Option<string>

  /** normalize_amount_str on a string. */
  type AmountText = string -> Option<string>

  datatype Agreement = Agreement(cid: string, room: string, amount: string, asset: string, hashlock: string,
    payerKey: Option<string>, payeeKey: Option<string>)

  datatype Transcript = Transcript(root: Option<string>, signatures: bool, inclusion: bool, anomalies: nat)

  datatype Provenance = SelfAttested | RpcReceipt | OnChainReceipt | CryptographicReceipt | OtherProvenance

  datatype Evidence = Evidence(status: string, provenance: Provenance, cid: string, asset: string, amount: string,
    hashlock: string, payer: Option<string>, payee: Option<string>, lockTime: Option<int>, refundTime: Option<int>,
    claimTime: Option<int>, claimTx: Option<string>, refundTx: Option<string>, secret: Option<string>,
    transferVerified: bool)

  datatype Anchors = Anchors(room: Option<string>, root: Option<string>, cid: Option<string>)

  datatype Reason =
    | RoomAnchor | RootAnchor | ContractAnchor | Signatures | Inclusion | Anomaly
    | ContractId | Hashlock | Amount | Asset | SecretMismatch | SecretMissing | SecretMalformed
    | LockTooLate | ClaimTooLate | Lifecycle | PayerKey | PayeeKey | TransferMissing | LacksProvenance
    | Schema | RootFormat | TrustModel | ClaimBeforeLock

  /** The artifact: what the standalone check reads of the agreement, the transcript and the settlement. */
  datatype Proof = Proof(room: string, cid: string, hashlock: string, amount: string, asset: string,
    root: Option<string>, settlement: Evidence, provenance: Provenance, onChain: bool, conformant: bool,
    failures: seq<Reason>)

  /** Python truth of an optional string. */
  predicate Truthy(v: Option<string>) {
    v.Some? && v.value != ""
  }

  predicate Same(a: string, b: string) {
    Lower(a) == Lower(b)
  }

  predicate IsToken(asset: string) {
    NormalizeAddress(Some(asset)).Some? && NormalizeAddress(Some(asset)).value != ZERO_ADDRESS
  }

  predicate Proven(p: Provenance) {
    p == RpcReceipt || p == CryptographicReceipt
  }

  predicate IsClaimed(status: string) {
    status == "claimed" || status == "claimed-on-rail"
  }

  // ---- verify_cross_layer ----

  /** The anchor as it is compared: normalized where it is hex, and as it stands otherwise. */
  function AnchorText(anchor: string): string {
    var n := NormalizeHex(Some(anchor));
    if n.Some? then n.value else anchor
  }

  predicate AnchorsHold(a: Agreement, t: Transcript, anchors: Anchors) {
    && (Truthy(anchors.room) ==> a.room == anchors.room.value)
    && (Truthy(anchors.root) && Truthy(t.root) ==> Same(t.root.value, anchors.root.value))
    && (Truthy(anchors.cid) ==> Same(a.cid, AnchorText(anchors.cid.value)))
  }

  predicate SecretHolds(sha: HashText, a: Agreement, s: Evidence) {
    IsClaimed(s.status) ==>
      && Truthy(s.secret)
      && sha(Unprefixed(s.secret.value)).Some?
      && Same(sha(Unprefixed(s.secret.value)).value, Unprefixed(a.hashlock))
  }

  predicate TimesHold(s: Evidence) {
    s.refundTime.Some? ==>
      && (s.lockTime.Some? ==> s.lockTime.value < s.refundTime.value)
      && (s.claimTime.Some? ==> s.claimTime.value < s.refundTime.value)
  }

  predicate LifecycleHolds(s: Evidence) {
    && (s.status == "claimed" ==> !Truthy(s.refundTx))
    && (s.status == "refunded" ==> !Truthy(s.claimTx))
  }

  predicate KeyHolds(derive: AddressOf, key: Option<string>, address: Option<string>) {
    Truthy(key) ==> derive(key.value).Some? && Truthy(address) && Same(derive(key.value).value, address.value)
  }

  predicate TransferHolds(a: Agreement, s: Evidence) {
    (IsToken(a.asset) || IsToken(s.asset)) && Proven(s.provenance) ==> s.transferVerified
  }

  predicate BindingsHold(a: Agreement, s: Evidence) {
    && Same(a.cid, s.cid)
    && a.hashlock != "" && s.hashlock != "" && Same(a.hashlock, s.hashlock)
    && a.amount == s.amount && Same(a.asset, s.asset)
  }

  predicate TermsHold(sha: HashText, derive: AddressOf, a: Agreement, s: Evidence) {
    && BindingsHold(a, s) && SecretHolds(sha, a, s) && TimesHold(s) && LifecycleHolds(s)
    && KeyHolds(derive, a.payerKey, s.payer) && KeyHolds(derive, a.payeeKey, s.payee)
    && TransferHolds(a, s)
  }

  /** Anchors, transcript and terms hold, wherever the evidence comes from. */
  predicate Agrees(sha: HashText, derive: AddressOf, a: Agreement, t: Transcript, s: Evidence, anchors: Anchors) {
    && AnchorsHold(a, t, anchors) && t.signatures && t.inclusion && t.anomalies == 0
    && TermsHold(sha, derive, a, s)
  }

  /** Conformance: anchors, transcript, terms and provenance all hold. */
  predicate Conforms(sha: HashText, derive: AddressOf, a: Agreement, t: Transcript, s: Evidence, anchors: Anchors) {
    Agrees(sha, derive, a, t, s, anchors) && (Proven(s.provenance) || s.provenance == OnChainReceipt)
  }

  /** No reason but missing provenance. */
  predicate OnlyProvenance(failures: seq<Reason>) {
    forall r :: r in failures ==> r == LacksProvenance
  }

  function ArtifactOf(a: Agreement, t: Transcript, s: Evidence, failures: seq<Reason>): Proof {
    Proof(a.room, a.cid, a.hashlock, a.amount, a.asset, t.root, s, s.provenance,
          Proven(s.provenance) || s.provenance == OnChainReceipt, failures == [], failures)
  }

  /** verify_cross_layer, from the parsed agreement, transcript and settlement on. */
  method VerifyCrossLayer(sha: HashText, derive: AddressOf, a: Agreement, t: Transcript, s: Evidence, anchors: Anchors)
    returns (proof: Proof)
    ensures proof == ArtifactOf(a, t, s, proof.failures)
    ensures proof.conformant <==> Conforms(sha, derive, a, t, s, anchors)
    ensures OnlyProvenance(proof.failures) <==> Agrees(sha, derive, a, t, s, anchors)
  {
    hide AnchorsHold, TermsHold;
    var failures := CheckGivenAnchors(a, t, anchors);
    var transcript := CheckTranscript(t);
    var authentic := transcript == [];
    var termsFailures := CheckTerms(sha, derive, a, s);
    failures := failures + transcript + termsFailures;
    assert LacksProvenance !in failures;
    assert failures == [] <==> Agrees(sha, derive, a, t, s, anchors);
    ProvenanceApart(failures);
    var onChain := Proven(s.provenance) || s.provenance == OnChainReceipt;
    if !onChain {
      failures := failures + [LacksProvenance];
    }
    var conformant := termsFailures == [] && authentic && onChain && |failures| == 0;
    proof := Proof(a.room, a.cid, a.hashlock, a.amount, a.asset, t.root, s, s.provenance, onChain, conformant,
      failures);
  }

  lemma ProvenanceApart(failures: seq<Reason>)
    requires LacksProvenance !in failures
    ensures OnlyProvenance(failures) <==> failures == []
    ensures OnlyProvenance(failures + [LacksProvenance]) <==> failures == []
  {
    if failures != [] {
      assert failures[0] in failures && failures[0] in failures + [LacksProvenance];
    }
  }

  method CheckGivenAnchors(a: Agreement, t: Transcript, anchors: Anchors) returns (failures: seq<Reason>)
    ensures failures == [] <==> AnchorsHold(a, t, anchors)
    ensures LacksProvenance !in failures
  {
    hide Lower, NormalizeHex;
    failures := [];
    if Truthy(anchors.room) && a.room != anchors.room.value {
      failures := failures + [RoomAnchor];
    }
    if Truthy(anchors.root) && Truthy(t.root) {
      if Lower(t.root.value) != Lower(anchors.root.value) {
        failures := failures + [RootAnchor];
      }
    }
    if Truthy(anchors.cid) {
      if Lower(a.cid) != Lower(AnchorText(anchors.cid.value)) {
        failures := failures + [ContractAnchor];
      }
    }
  }

  method CheckTranscript(t: Transcript) returns (failures: seq<Reason>)
    ensures failures == [] <==> t.signatures && t.inclusion && t.anomalies == 0
    ensures LacksProvenance !in failures
  {
    failures := [];
    if !t.signatures {
      failures := failures + [Signatures];
    }
    if !t.inclusion {
      failures := failures + [Inclusion];
    }
    if t.anomalies > 0 {
      failures := failures + seq(t.anomalies, i => Anomaly);
    }
  }

  method CheckTerms(sha: HashText, derive: AddressOf, a: Agreement, s: Evidence) returns (failures: seq<Reason>)
    ensures failures == [] <==> TermsHold(sha, derive, a, s)
    ensures LacksProvenance !in failures
  {
    hide BindingsHold, SecretHolds, TimesHold, LifecycleHolds, KeyHolds, TransferHolds;
    failures := CheckBindings(a, s);
    var secret := CheckSecret(sha, a, s);
    var times := CheckTimes(s);
    var payer := CheckKey(derive, a.payerKey, s.payer, PayerKey);
    var payee := CheckKey(derive, a.payeeKey, s.payee, PayeeKey);
    failures := failures + secret + times + payer + payee;
    if (IsToken(a.asset) || IsToken(s.asset)) && Proven(s.provenance) && !s.transferVerified {
      failures := failures + [TransferMissing];
    }
    TransferMeans(a, s);
  }

  lemma {:induction false} TransferMeans(a: Agreement, s: Evidence)
    ensures TransferHolds(a, s) <==>
      !((IsToken(a.asset) || IsToken(s.asset)) && Proven(s.provenance) && !s.transferVerified)
  {
  }

  method CheckBindings(a: Agreement, s: Evidence) returns (failures: seq<Reason>)
    ensures failures == [] <==> BindingsHold(a, s)
    ensures LacksProvenance !in failures
  {
    hide Lower;
    failures := [];
    if Lower(a.cid) != Lower(s.cid) {
      failures := failures + [ContractId];
    }
    var hashlocksMatch := false;
    if a.hashlock != "" && s.hashlock != "" {
      hashlocksMatch := Lower(a.hashlock) == Lower(s.hashlock);
    }
    if !hashlocksMatch {
      failures := failures + [Hashlock];
    }
    if a.amount != s.amount {
      failures := failures + [Amount];
    }
    if Lower(a.asset) != Lower(s.asset) {
      failures := failures + [Asset];
    }
  }

  method CheckSecret(sha: HashText, a: Agreement, s: Evidence) returns (failures: seq<Reason>)
    ensures failures == [] <==> SecretHolds(sha, a, s)
    ensures LacksProvenance !in failures
  {
    hide Lower, Unprefixed;
    failures := [];
    if IsClaimed(s.status) {
      if Truthy(s.secret) {
        var computed := sha(Unprefixed(s.secret.value));
        if computed.None? {
          failures := [SecretMalformed];
        } else if Lower(computed.value) != Lower(Unprefixed(a.hashlock)) {
          failures := [SecretMismatch];
        }
      } else {
        failures := [SecretMissing];
      }
    }
  }

  method CheckTimes(s: Evidence) returns (failures: seq<Reason>)
    ensures failures == [] <==> TimesHold(s) && LifecycleHolds(s)
    ensures LacksProvenance !in failures
  {
    failures := [];
    if s.lockTime.Some? && s.refundTime.Some? && s.lockTime.value >= s.refundTime.value {
      failures := failures + [LockTooLate];
    }
    if s.claimTime.Some? && s.refundTime.Some? && s.claimTime.value >= s.refundTime.value {
      failures := failures + [ClaimTooLate];
    }
    if s.status == "claimed" {
      if Truthy(s.refundTx) {
        failures := failures + [Lifecycle];
      }
    } else if s.status == "refunded" {
      if Truthy(s.claimTx) {
        failures := failures + [Lifecycle];
      }
    }
  }

  method CheckKey(derive: AddressOf, key: Option<string>, address: Option<string>, reason: Reason)
    returns (failures: seq<Reason>)
    requires reason != LacksProvenance
    ensures failures == [] <==> KeyHolds(derive, key, address)
    ensures LacksProvenance !in failures
  {
    hide Lower;
    failures := [];
    if Truthy(key) {
      var derived := derive(key.value);
      if derived.None? || !Truthy(address) || Lower(derived.value) != Lower(address.value) {
        failures := [reason];
      }
    }
  }

  // ---- the two sources of evidence ----

  /** A dictionary or file supplied by the caller, or transactions of a node. */
  datatype Source =
    | Dictionary(fields: Evidence)
    | Transactions(rpc: Settlement.Rpc, chain: int, lockTx: Option<string>, claimTx: Option<string>,
                   refundTx: Option<string>, htlc: Option<string>, expectedChain: Option<int>)

  /** build_rpc_settlement_evidence's record as the verdict reads it; None is the exception on a field it lacks. */
  function FromReceipts(ev: Settlement.Evidence, claimTx: Option<string>, refundTx: Option<string>,
      decimal: nat -> string)
    : Option<Evidence>
  {
    if ev.cid.None? || ev.asset.None? then None
    else
      var status := match ev.status
        case EscrowLocked => "locked"
        case EscrowClaimed => "claimed"
        case EscrowRefunded => "refunded";
      Some(Evidence(status, RpcReceipt, ev.cid.value, ev.asset.value, decimal(ev.amount),
                    if ev.hashlock.Some? then ev.hashlock.value else "", Some(ev.payer), Some(ev.payee), None,
                    Some(ev.refundTimestamp), None, claimTx, refundTx, ev.secret, ev.transferVerified))
  }

  /** The lock event that the transactions are read from. */
  function LockEvent(src: Source, cid: Option<string>): Result<Event>
    requires src.Transactions?
  {
    if Settlement.Given(src.lockTx).None? || src.expectedChain != Some(src.chain) then Err
    else
      var lock := Settlement.FetchEvent(src.rpc, Settlement.Given(src.lockTx).value, src.htlc, cid, "Locked");
      if lock.Ok? && lock.value.Locked? then lock else Err
  }

  /** The evidence a source gives: whatever a dictionary says of itself, it is self-attested. */
  function Gather(src: Source, cid: Option<string>, decimal: nat -> string): Option<Evidence> {
    match src
    case Dictionary(fields) => Some(fields.(provenance := SelfAttested))
    case Transactions(_, _, _, _, _, _, _) =>
      var lock := LockEvent(src, cid);
      if lock.Err? then None
      else
        var ev := Settlement.Built(src.rpc, lock.value, src.claimTx, src.refundTx, cid);
        if ev.Err? then None else FromReceipts(ev.value, src.claimTx, src.refundTx, decimal)
  }

  /** verify_cross_layer from its settlement source on; without evidence there is no artifact. */
  method VerifyDeal(sha: HashText, derive: AddressOf, decimal: nat -> string, a: Agreement, t: Transcript, src: Source,
    anchors: Anchors) returns (proof: Option<Proof>)
    ensures proof.Some? <==> Gather(src, anchors.cid, decimal).Some?
    ensures proof.Some? ==>
      var s := Gather(src, anchors.cid, decimal).value;
      && proof.value == ArtifactOf(a, t, s, proof.value.failures)
      && (proof.value.conformant <==> Conforms(sha, derive, a, t, s, anchors))
      && (OnlyProvenance(proof.value.failures) <==> Agrees(sha, derive, a, t, s, anchors))
  {
    hide Agrees, OnlyProvenance, ArtifactOf, Settlement.FetchEvent, Settlement.Built;
    var s: Option<Evidence>;
    match src {
      case Dictionary(fields) =>
        s := Some(fields.(provenance := SelfAttested));
      case Transactions(rpc, chain, lockTx, claimTx, refundTx, htlc, expectedChain) =>
        var ev := Settlement.BuildRpcSettlementEvidence(rpc, chain, lockTx, claimTx, refundTx, htlc, anchors.cid,
          expectedChain);
        s := if ev.Ok? then FromReceipts(ev.value, claimTx, refundTx, decimal) else None;
    }
    if s.None? {
      return None;
    }
    var artifact := VerifyCrossLayer(sha, derive, a, t, s.value, anchors);
    return Some(artifact);
  }

  // ---- verify_standalone_proof ----

  /** The root's format: 32 bytes of hex, with or without a prefix. */
  predicate RootFormatHolds(proof: Proof) {
    proof.root.Some? ==> |Unprefixed(proof.root.value)| == 64 && AllHex(Unprefixed(proof.root.value))
  }

  /** Two texts, each given, in the same normal form; a missing one is not compared. */
  predicate NormalsAgree(a: string, b: string) {
    a != "" && b != "" ==> NormalizeHex(Some(a)) == NormalizeHex(Some(b))
  }

  /** The normal form of the hashlock the secret must open. */
  function Target(proof: Proof): Option<string> {
    if proof.hashlock != "" && NormalizeHex(Some(proof.hashlock)).Some? then NormalizeHex(Some(proof.hashlock))
    else if proof.settlement.hashlock != "" then NormalizeHex(Some(proof.settlement.hashlock))
    else None
  }

  /** A revealed secret opens the hashlock, whatever the status says. */
  predicate SecretOpens(sha: HashText, proof: Proof) {
    Truthy(proof.settlement.secret) ==>
      var computed := sha(Unprefixed(proof.settlement.secret.value));
      computed.Some? && (Target(proof).Some? ==> NormalizeHex(Some("0x" + computed.value)) == Target(proof))
  }

  predicate AmountsAgree(amountOf: AmountText, proof: Proof) {
    amountOf(proof.amount).Some? && amountOf(proof.settlement.amount).Some? ==>
      amountOf(proof.amount) == amountOf(proof.settlement.amount)
  }

  function AssetText(asset: string): string {
    var n := NormalizeAddress(Some(asset));
    if n.Some? then n.value else Lower(asset)
  }

  predicate AssetsAgree(proof: Proof) {
    var a, b := AssetText(proof.asset), AssetText(proof.settlement.asset);
    a != "" && b != "" ==> a == b
  }

  predicate InOrder(s: Evidence) {
    s.claimTime.Some? ==>
      && (s.lockTime.Some? ==> s.lockTime.value <= s.claimTime.value)
      && (s.refundTime.Some? ==> s.claimTime.value <= s.refundTime.value)
  }

  /** What each provenance may claim. */
  predicate TrustHolds(proof: Proof) {
    match proof.provenance
    case SelfAttested =>
      !proof.onChain && !proof.conformant
      && ((IsToken(proof.asset) || IsToken(proof.settlement.asset)) ==> !proof.settlement.transferVerified)
    case RpcReceipt | CryptographicReceipt =>
      (IsToken(proof.asset) || IsToken(proof.settlement.asset)) ==> proof.settlement.transferVerified
    case OnChainReceipt | OtherProvenance => false
  }

  predicate ProofAnchorsHold(proof: Proof, anchors: Anchors) {
    && (Truthy(anchors.room) ==> proof.room == anchors.room.value)
    && (Truthy(anchors.root) && proof.root.Some? && Unprefixed(proof.root.value) != "" ==>
          Same(Unprefixed(proof.root.value), Unprefixed(anchors.root.value)))
    && (Truthy(anchors.cid) && proof.cid != "" ==> NormalizeHex(Some(proof.cid)) == NormalizeHex(anchors.cid))
  }

  /** Valid: the schema holds, everything embedded agrees, and nothing but missing provenance was recorded. */
  predicate Valid(sha: HashText, amountOf: AmountText, schema: bool, proof: Proof, anchors: Anchors) {
    && schema && NormalsAgree(proof.cid, proof.settlement.cid) && RootFormatHolds(proof)
    && NormalsAgree(proof.hashlock, proof.settlement.hashlock) && SecretOpens(sha, proof)
    && AmountsAgree(amountOf, proof) && AssetsAgree(proof) && ProofAnchorsHold(proof, anchors)
    && TrustHolds(proof) && InOrder(proof.settlement)
    && OnlyProvenance(proof.failures)
  }

  predicate Conformant(sha: HashText, amountOf: AmountText, schema: bool, proof: Proof, anchors: Anchors) {
    && Valid(sha, amountOf, schema, proof, anchors)
    && Proven(proof.provenance) && proof.conformant && proof.failures == []
  }

  /**
   * verify_standalone_proof on an artifact of the cross-layer verifier, with the outcome of schema validation given.
   */
  method VerifyStandaloneProof(sha: HashText, amountOf: AmountText, schema: bool, proof: Proof, anchors: Anchors)
    returns (valid: bool, conformant: bool)
    ensures valid <==> Valid(sha, amountOf, schema, proof, anchors)
    ensures conformant <==> Conformant(sha, amountOf, schema, proof, anchors)
  {
    hide NormalsAgree, RootFormatHolds, SecretOpens, AmountsAgree, AssetsAgree, ProofAnchorsHold, TrustHolds, InOrder;
    var failures: seq<Reason> := if schema then [] else [Schema];
    var embedded := CheckEmbedded(sha, amountOf, proof);
    var anchored := CheckAnchors(proof, anchors);
    failures := failures + embedded + anchored;
    var trust, trustFailures, notes := CheckTrust(proof);
    failures := failures + trustFailures + notes;
    var times := CheckOrder(proof.settlement);
    failures := failures + times;
    var cryptoValid := embedded == [] && trustFailures == [] && times == [];
    var all := Retain(failures, proof.failures);
    assert anchored != [] ==> anchored[0] in all;
    assert anchored == [] <==> forall r :: r in anchored ==> r == LacksProvenance;
    valid := schema && cryptoValid && trust && forall r :: r in all ==> r == LacksProvenance;
    conformant := valid && Proven(proof.provenance) && proof.conformant && |all| == 0;
  }

  /** Recorded reasons that are not already present are kept, in order. */
  method Retain(failures: seq<Reason>, recorded: seq<Reason>) returns (all: seq<Reason>)
    ensures forall r :: r in all <==> r in failures || r in recorded
    ensures all == [] <==> failures == [] && recorded == []
  {
    all := failures;
    for i := 0 to |recorded|
      invariant forall r :: r in all <==> r in failures || r in recorded[..i]
      invariant all == [] <==> failures == [] && i == 0
    {
      assert recorded[..i + 1] == recorded[..i] + [recorded[i]];
      if recorded[i] !in all {
        all := all + [recorded[i]];
      }
    }
    assert recorded[..|recorded|] == recorded;
  }

  method CheckEmbedded(sha: HashText, amountOf: AmountText, proof: Proof) returns (failures: seq<Reason>)
    ensures failures == [] <==>
      && NormalsAgree(proof.cid, proof.settlement.cid) && RootFormatHolds(proof)
      && NormalsAgree(proof.hashlock, proof.settlement.hashlock) && SecretOpens(sha, proof)
      && AmountsAgree(amountOf, proof) && AssetsAgree(proof)
    ensures LacksProvenance !in failures
  {
    hide Lower, NormalizeHex, NormalizeAddress, Unprefixed, AllHex, Target, AssetText;
    failures := [];
    var s := proof.settlement;
    if proof.cid != "" && s.cid != "" && NormalizeHex(Some(proof.cid)) != NormalizeHex(Some(s.cid)) {
      failures := failures + [ContractId];
    }
    if proof.root.Some? {
      var clean := Unprefixed(proof.root.value);
      if |clean| != 64 || !AllHex(clean) {
        failures := failures + [RootFormat];
      }
    }
    if proof.hashlock != "" && s.hashlock != ""
       && NormalizeHex(Some(proof.hashlock)) != NormalizeHex(Some(s.hashlock)) {
      failures := failures + [Hashlock];
    }
    if Truthy(s.secret) {
      var computed := sha(Unprefixed(s.secret.value));
      if computed.None? {
        failures := failures + [SecretMalformed];
      } else if Target(proof).Some? && NormalizeHex(Some("0x" + computed.value)) != Target(proof) {
        failures := failures + [SecretMismatch];
      }
    }
    var amount, other := amountOf(proof.amount), amountOf(s.amount);
    if amount.Some? && other.Some? && amount != other {
      failures := failures + [Amount];
    }
    var asset, otherAsset := AssetText(proof.asset), AssetText(s.asset);
    if asset != "" && otherAsset != "" && asset != otherAsset {
      failures := failures + [Asset];
    }
  }

  method CheckAnchors(proof: Proof, anchors: Anchors) returns (failures: seq<Reason>)
    ensures failures == [] <==> ProofAnchorsHold(proof, anchors)
    ensures LacksProvenance !in failures
  {
    hide Lower, NormalizeHex, Unprefixed;
    failures := [];
    if Truthy(anchors.room) && proof.room != anchors.room.value {
      failures := failures + [RoomAnchor];
    }
    if Truthy(anchors.root) && proof.root.Some? {
      var clean := Unprefixed(proof.root.value);
      if clean != "" && Lower(clean) != Lower(Unprefixed(anchors.root.value)) {
        failures := failures + [RootAnchor];
      }
    }
    if Truthy(anchors.cid) && proof.cid != "" {
      if NormalizeHex(Some(proof.cid)) != NormalizeHex(anchors.cid) {
        failures := failures + [ContractAnchor];
      }
    }
  }

  /** The trust-model rules; notes are reasons that do not count against validity. */
  method CheckTrust(proof: Proof) returns (trust: bool, failures: seq<Reason>, notes: seq<Reason>)
    ensures trust && failures == [] <==> TrustHolds(proof)
    ensures LacksProvenance !in failures && forall r :: r in notes ==> r == LacksProvenance
    ensures notes != [] ==> proof.provenance == SelfAttested
  {
    hide NormalizeAddress;
    trust, failures, notes := true, [], [];
    var token := IsToken(proof.asset) || IsToken(proof.settlement.asset);
    if proof.provenance == SelfAttested {
      if proof.onChain {
        trust, failures := false, failures + [TrustModel];
      }
      if proof.conformant {
        trust, failures := false, failures + [TrustModel];
      } else {
        notes := [LacksProvenance];
      }
      if token && (proof.settlement.transferVerified || proof.conformant) {
        trust, failures := false, failures + [TrustModel];
      }
    } else if Proven(proof.provenance) {
      if token && !proof.settlement.transferVerified {
        failures := failures + [TransferMissing];
      }
    } else {
      trust, failures := false, [TrustModel];
    }
  }

  method CheckOrder(s: Evidence) returns (failures: seq<Reason>)
    ensures failures == [] <==> InOrder(s)
    ensures LacksProvenance !in failures
  {
    failures := [];
    if s.lockTime.Some? && s.claimTime.Some? && s.lockTime.value > s.claimTime.value {
      failures := failures + [ClaimBeforeLock];
    }
    if s.claimTime.Some? && s.refundTime.Some? && s.claimTime.value > s.refundTime.value {
      failures := failures + [ClaimTooLate];
    }
  }
}
