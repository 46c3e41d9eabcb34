/** The member names of tclk/1 frames and of room records, and objects built from them. */
module Keys {
  import opened Text
  import opened Json

  datatype Key =
    | KType | KFrom | KRole | KAmount | KAsset | KLock | KRails | KClaimByMs | KRefundAfterMs | KExpiresMs | KNonce
      | KId
    | KPaymentKey | KJob | KRef | KStatement | KContract | KRail | KSecret | KOutcome | KOffer | KAccept
    | KRoom | KSeq | KTs | KSig | KText

  function Literal(k: Key): (s: string)
    ensures s != []
  {
    match k
    case KType => "type" case KFrom => "from" case KRole => "role" case KAmount => "amount" case KAsset => "asset"
    case KLock => "lock" case KRails => "rails" case KClaimByMs => "claimByMs" case KRefundAfterMs => "refundAfterMs"
    case KExpiresMs => "expiresMs" case KNonce => "nonce" case KId => "id" case KPaymentKey => "paymentKey"
    case KJob => "job" case KRef => "ref" case KStatement => "statement" case KContract => "contract"
    case KRail => "rail" case KSecret => "secret" case KOutcome => "outcome" case KOffer => "offer"
    case KAccept => "accept" case KRoom => "room" case KSeq => "seq" case KTs => "ts" case KSig => "sig"
    case KText => "text"
  }

  function Name(k: Key): Text {
    U(Literal(k))
  }

  /** Length, first and third character: enough to tell the names apart. */
  function Signature(s: string): (nat, char, char)
    requires s != []
  {
    (|s|, s[0], if |s| > 2 then s[2] else ' ')
  }

  function Sign(k: Key): (nat, char, char) {
    match k
    case KType => (4, 't', 'p') case KFrom => (4, 'f', 'o') case KRole => (4, 'r', 'l') case KAmount => (6, 'a', 'o')
    case KAsset => (5, 'a', 's') case KLock => (4, 'l', 'c') case KRails => (5, 'r', 'i')
    case KClaimByMs => (9, 'c', 'a') case KRefundAfterMs => (13, 'r', 'f') case KExpiresMs => (9, 'e', 'p')
    case KNonce => (5, 'n', 'n') case KId => (2, 'i', ' ') case KPaymentKey => (10, 'p', 'y')
    case KJob => (3, 'j', 'b') case KRef => (3, 'r', 'f') case KStatement => (9, 's', 'a')
    case KContract => (8, 'c', 'n') case KRail => (4, 'r', 'i') case KSecret => (6, 's', 'c')
    case KOutcome => (7, 'o', 't') case KOffer => (5, 'o', 'f') case KAccept => (6, 'a', 'c')
    case KRoom => (4, 'r', 'o') case KSeq => (3, 's', 'q') case KTs => (2, 't', ' ') case KSig => (3, 's', 'g')
    case KText => (4, 't', 'x')
  }

  lemma SignIsSignature(k: Key)
    ensures Signature(Literal(k)) == Sign(k)
  {
  }

  lemma EqualTextsEqualSignatures(s: string, t: string)
    requires s != [] && t != [] && U(s) == U(t)
    requires forall c <- s + t :: c as int < 128
    ensures Signature(s) == Signature(t)
  {
    assert |s| == |t|;
    forall i | 0 <= i < |s| ensures s[i] == t[i] {
      assert s[i] in s + t && t[i] in s + t;
      assert U(s)[i] == U(t)[i];
    }
  }

  lemma LiteralIsAscii(k: Key)
    ensures forall i :: 0 <= i < |Literal(k)| ==> Literal(k)[i] as int < 128
  {
  }

  lemma NamesDiffer(a: Key, b: Key)
    requires a != b
    ensures Name(a) != Name(b)
  {
    hide Literal, Signature, U;
    SignIsSignature(a);
    SignIsSignature(b);
    LiteralIsAscii(a);
    LiteralIsAscii(b);
    if Name(a) == Name(b) {
      EqualTextsEqualSignatures(Literal(a), Literal(b));
    }
  }

  /** An object literal: names and values in the order written. */
  function Build(keys: seq<Key>, values: seq<Json>): Members
    requires |keys| == |values|
  {
    if keys == [] then NoMembers else Member(Name(keys[0]), values[0], Build(keys[1..], values[1..]))
  }

  predicate Distinct(keys: seq<Key>) {
    forall i, j :: 0 <= i < j < |keys| ==> keys[i] != keys[j]
  }

  lemma {:induction false} BuildHasKey(keys: seq<Key>, values: seq<Json>, k: Key)
    requires |keys| == |values| && k !in keys
    ensures !HasKey(Build(keys, values), Name(k))
  {
    if keys != [] {
      NamesDiffer(k, keys[0]);
      BuildHasKey(keys[1..], values[1..], k);
    }
  }

  lemma {:induction false} BuildGet(keys: seq<Key>, values: seq<Json>, i: nat)
    requires |keys| == |values| && i < |keys| && Distinct(keys)
    ensures Get(Build(keys, values), Name(keys[i])) == values[i]
  {
    if i > 0 {
      NamesDiffer(keys[0], keys[i]);
      BuildGet(keys[1..], values[1..], i - 1);
    }
  }

  lemma {:induction false} BuildPlain(keys: seq<Key>, values: seq<Json>)
    requires |keys| == |values| && Distinct(keys)
    requires forall i :: 0 <= i < |values| ==> Plain(values[i])
    ensures Plain(Obj(Build(keys, values)))
  {
    if keys != [] {
      BuildPlain(keys[1..], values[1..]);
      BuildHasKey(keys[1..], values[1..], keys[0]);
    }
  }

  /** Objects built on one list of distinct names are the same exactly when their values are. */
  lemma {:induction false} BuildSame(keys: seq<Key>, v: seq<Json>, w: seq<Json>, i: nat)
    requires |keys| == |v| == |w| && Distinct(keys) && i < |keys|
    requires Same(Obj(Build(keys, v)), Obj(Build(keys, w)))
    ensures Same(v[i], w[i])
  {
    BuildGet(keys, v, i);
    BuildGet(keys, w, i);
    assert Same(Get(Build(keys, v), Name(keys[i])), Get(Build(keys, w), Name(keys[i])));
  }
}
