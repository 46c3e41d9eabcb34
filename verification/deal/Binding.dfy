/** Identifiers bind: one contract id, one agreement, or a SHA-256 collision. */
module Binding {
  import opened Bytes
  import opened Text
  import opened Json
  import opened Keys
  import opened Printer
  import opened RoundTrip
  import opened Hex
  import opened Deal

  lemma OfferKeysDistinct()
    ensures Distinct(OFFER_KEYS + [KId]) && Distinct(OFFER_KEYS)
  {
  }

  lemma {:induction false} TextItemsPlain(ts: seq<Text>)
    ensures PlainItems(TextItems(ts))
  {
    if ts != [] {
      TextItemsPlain(ts[1..]);
    }
  }

  lemma {:induction false} TextItemsSame(a: seq<Text>, b: seq<Text>)
    requires SameItems(TextItems(a), TextItems(b))
    ensures a == b
  {
    if a != [] && b != [] {
      TextItemsSame(a[1..], b[1..]);
      assert a == [a[0]] + a[1..] && b == [b[0]] + b[1..];
    }
  }

  lemma AgreementPlain(o: Offer, a: AcceptCore)
    ensures Plain(OfferFields(o)) && Plain(AgreementJson(o, a))
  {
    hide Build, Name, U;
    OfferKeysDistinct();
    TextItemsPlain(o.rails);
    BuildPlain(OFFER_KEYS, OfferValues(o));
    BuildPlain(OFFER_KEYS + [KId], OfferValues(o) + [Str(o.id)]);
    BuildPlain(CORE_KEYS, [Str(a.from), Str(a.ref), Str(a.statement), a.paymentKey, Str(a.nonce)]);
    BuildPlain([KOffer, KAccept], [OfferJson(o), CoreJson(a)]);
  }

  /** Two offers are one, up to key order and undefined members inside the two free-form members. */
  ghost predicate SameOffer(o: Offer, p: Offer) {
    && p == o.(paymentKey := p.paymentKey, job := p.job)
    && Same(o.paymentKey, p.paymentKey) && Same(o.job, p.job)
  }

  ghost predicate SameCore(a: AcceptCore, b: AcceptCore) {
    b == a.(paymentKey := b.paymentKey) && Same(a.paymentKey, b.paymentKey)
  }

  lemma RoleTextInjective(r: Role, s: Role)
    requires RoleText(r) == RoleText(s)
    ensures r == s
  {
    assert U("payer")[4] == 'r' as int && U("payee")[4] == 'e' as int;
  }

  lemma LockKindTextInjective(k: LockKind, l: LockKind)
    requires LockKindText(k) == LockKindText(l)
    ensures k == l
  {
    assert |U("hash")| == 4 && |U("point")| == 5;
  }

  lemma OfferJsonInjective(o: Offer, p: Offer)
    requires Same(OfferJson(o), OfferJson(p))
    ensures SameOffer(o, p)
  {
    hide Build, Name, U, Distinct, RoleText, LockKindText, TextItems;
    OfferKeysDistinct();
    var keys := OFFER_KEYS + [KId];
    var v, w := OfferValues(o) + [Str(o.id)], OfferValues(p) + [Str(p.id)];
    forall i | 0 <= i < |keys| ensures Same(v[i], w[i]) {
      BuildSame(keys, v, w, i);
    }
    OfferValuesDetermine(o, p, v, w);
  }

  lemma OfferValuesDetermine(o: Offer, p: Offer, v: seq<Json>, w: seq<Json>)
    requires v == OfferValues(o) + [Str(o.id)] && w == OfferValues(p) + [Str(p.id)]
    requires forall i :: 0 <= i < 14 ==> Same(v[i], w[i])
    ensures SameOffer(o, p)
  {
    hide U, RoleText, LockKindText, TextItems;
    assert Same(v[1], w[1]) && Same(v[2], w[2]) && Same(v[3], w[3]) && Same(v[4], w[4]) && Same(v[5], w[5]);
    assert Same(v[6], w[6]) && Same(v[7], w[7]) && Same(v[8], w[8]) && Same(v[9], w[9]) && Same(v[10], w[10]);
    assert Same(v[11], w[11]) && Same(v[12], w[12]) && Same(v[13], w[13]);
    RoleTextInjective(o.role, p.role);
    LockKindTextInjective(o.lock, p.lock);
    TextItemsSame(o.rails, p.rails);
  }

  lemma CoreJsonInjective(a: AcceptCore, b: AcceptCore)
    requires Same(CoreJson(a), CoreJson(b))
    ensures SameCore(a, b)
  {
    hide Build, Name;
    var v := [Str(a.from), Str(a.ref), Str(a.statement), a.paymentKey, Str(a.nonce)];
    var w := [Str(b.from), Str(b.ref), Str(b.statement), b.paymentKey, Str(b.nonce)];
    forall i | 0 <= i < 5 ensures Same(v[i], w[i]) {
      BuildSame(CORE_KEYS, v, w, i);
    }
    assert Same(v[0], w[0]) && Same(v[1], w[1]) && Same(v[2], w[2]) && Same(v[3], w[3]) && Same(v[4], w[4]);
  }

  lemma AgreementInjective(o: Offer, a: AcceptCore, p: Offer, b: AcceptCore)
    requires Same(AgreementJson(o, a), AgreementJson(p, b))
    ensures SameOffer(o, p) && SameCore(a, b)
  {
    hide Build, Name, OfferJson, CoreJson;
    BuildSame([KOffer, KAccept], [OfferJson(o), CoreJson(a)], [OfferJson(p), CoreJson(b)], 0);
    BuildSame([KOffer, KAccept], [OfferJson(o), CoreJson(a)], [OfferJson(p), CoreJson(b)], 1);
    OfferJsonInjective(o, p);
    CoreJsonInjective(a, b);
  }

  lemma {:induction false} AsciiBytesInjective(s: Text, t: Text)
    requires forall i :: 0 <= i < |s| ==> s[i] < 0x80
    requires forall i :: 0 <= i < |t| ==> t[i] < 0x80
    requires AsciiBytes(s) == AsciiBytes(t)
    ensures s == t
  {
    assert |s| == |AsciiBytes(s)| == |t|;
    forall i | 0 <= i < |s| ensures s[i] == t[i] {
      assert AsciiBytes(s)[i] == AsciiBytes(t)[i];
    }
  }

  /** A hashed text is tagged: equal preimages have equal tags and equal payloads. */
  lemma PreimageInjective(t1: Tag, p1: Text, t2: Tag, p2: Text)
    requires Preimage(t1, p1) == Preimage(t2, p2)
    ensures t1 == t2 && ToAscii(p1) == ToAscii(p2)
  {
    hide ToAscii, AsciiBytes;
    var x, y := Preimage(t1, p1), Preimage(t2, p2);
    assert x[15] == TagText(t1)[0] && y[15] == TagText(t2)[0];
    var k := |DOMAIN| + 1 + |TagText(t1)| + 1;
    ToAsciiIsAscii(p1);
    ToAsciiIsAscii(p2);
    assert x[k..] == AsciiBytes(ToAscii(p1)) && y[k..] == AsciiBytes(ToAscii(p2));
    AsciiBytesInjective(ToAscii(p1), ToAscii(p2));
  }

  /** Two tagged hashes that agree on different tagged payloads yield a collision. */
  function TaggedCollision(h: HashFn, t1: Tag, p1: Text, t2: Tag, p2: Text): (c: Collision)
    requires DomainHash(h, t1, p1) == DomainHash(h, t2, p2)
    requires t1 != t2 || ToAscii(p1) != ToAscii(p2)
    ensures IsCollision(h, c)
  {
    hide ToAscii, HexText;
    HexTextInjective(h(Preimage(t1, p1)).bytes, h(Preimage(t2, p2)).bytes);
    assert Preimage(t1, p1) != Preimage(t2, p2) by {
      if Preimage(t1, p1) == Preimage(t2, p2) {
        PreimageInjective(t1, p1, t2, p2);
      }
    }
    Collision(Preimage(t1, p1), Preimage(t2, p2))
  }

  /** A contract id fixes the whole agreement: offer and accept alike, or the collision is computed. */
  function ContractIdCollision(h: HashFn, o: Offer, a: AcceptCore, p: Offer, b: AcceptCore): (c: Collision)
    requires ComputeContractId(h, o, a).Some? && ComputeContractId(h, o, a) == ComputeContractId(h, p, b)
    requires !(SameOffer(o, p) && SameCore(a, b))
    ensures IsCollision(h, c)
  {
    hide SameOffer, SameCore, CanonicalJson, ToAscii, DomainHash, AgreementJson, IsCollision, Same;
    var x, y := CanonicalJson(AgreementJson(o, a)).value, CanonicalJson(AgreementJson(p, b)).value;
    assert ToAscii(x) != ToAscii(y) by {
      AgreementPlain(o, a);
      AgreementPlain(p, b);
      CanonicalUnambiguous(AgreementJson(o, a), AgreementJson(p, b));
      if Same(AgreementJson(o, a), AgreementJson(p, b)) {
        AgreementInjective(o, a, p, b);
      }
    }
    TaggedCollision(h, ContractTag, x, ContractTag, y)
  }

  /** An offer id is never a contract id, unless the collision is computed. */
  function CrossCollision(h: HashFn, o: Offer, p: Offer, b: AcceptCore): (c: Collision)
    requires ComputeOfferId(h, o).Some? && ComputeOfferId(h, o) == ComputeContractId(h, p, b)
    ensures IsCollision(h, c)
  {
    hide CanonicalJson, ToAscii, DomainHash, IsCollision, AgreementJson, OfferFields;
    TaggedCollision(h, OfferTag, CanonicalJson(OfferFields(o)).value,
                    ContractTag, CanonicalJson(AgreementJson(p, b)).value)
  }

  /** An honest agreement, resent in any key order, has the same contract id. */
  lemma SameAgreementSameId(h: HashFn, o: Offer, a: AcceptCore, p: Offer, b: AcceptCore)
    requires Same(AgreementJson(o, a), AgreementJson(p, b))
    requires ComputeContractId(h, o, a).Some? && ComputeContractId(h, p, b).Some?
    ensures ComputeContractId(h, o, a) == ComputeContractId(h, p, b)
  {
    hide CanonicalJson, ToAscii, AgreementJson, Same, HexText;
    AgreementPlain(o, a);
    AgreementPlain(p, b);
    CanonicalUnambiguous(AgreementJson(o, a), AgreementJson(p, b));
  }
}
