/** JSON values as JavaScript holds them, their canonical form, and equality up to key order and undefined members. */
module Json {
  import opened Text

  /** The integers that a JavaScript number holds exactly. */
  type SafeInt = n: int | -0x1F_FFFF_FFFF_FFFF <= n <= 0x1F_FFFF_FFFF_FFFF

  datatype Json =
    | Undef
    | Null
    | Bool(b: bool)
    | Num(n: SafeInt)
    | Str(s: Text)
    | Arr(items: Items)
    | Obj(members: Members)

  datatype Items = NoItems | Item(head: Json, tail: Items)

  datatype Members = NoMembers | Member(key: Text, value: Json, rest: Members)

  function Size(v: Json): nat {
    match v
    case Arr(items) => 1 + ItemsSize(items)
    case Obj(members) => 1 + MembersSize(members)
    case _ => 0
  }

  function ItemsSize(items: Items): nat {
    match items
    case NoItems => 0
    case Item(head, tail) => 1 + Size(head) + ItemsSize(tail)
  }

  function MembersSize(m: Members): nat {
    match m
    case NoMembers => 0
    case Member(_, value, rest) => 1 + Size(value) + MembersSize(rest)
  }

  predicate HasKey(m: Members, k: Text) {
    m.Member? && (m.key == k || HasKey(m.rest, k))
  }

  predicate DistinctKeys(m: Members) {
    m.Member? ==> !HasKey(m.rest, m.key) && DistinctKeys(m.rest)
  }

  /** No object repeats a key, at any depth: true of every JavaScript value. */
  predicate Plain(v: Json) {
    match v
    case Arr(items) => PlainItems(items)
    case Obj(members) => DistinctKeys(members) && PlainMembers(members)
    case _ => true
  }

  predicate PlainItems(items: Items) {
    items.Item? ==> Plain(items.head) && PlainItems(items.tail)
  }

  predicate PlainMembers(m: Members) {
    m.Member? ==> Plain(m.value) && PlainMembers(m.rest)
  }

  /** record[k], with an undefined member reading like a missing one. */
  function Get(m: Members, k: Text): (v: Json)
    ensures v != Undef ==> HasKey(m, k)
    ensures Size(v) <= MembersSize(m)
    ensures PlainMembers(m) ==> Plain(v)
  {
    match m
    case NoMembers => Undef
    case Member(key, value, rest) => if key == k then value else Get(rest, k)
  }

  // ---- sorting ----

  function Insert(k: Text, v: Json, m: Members): (r: Members)
    ensures MembersSize(r) == 1 + Size(v) + MembersSize(m)
  {
    if m.NoMembers? || !Less(m.key, k) then Member(k, v, m) else Member(m.key, m.value, Insert(k, v, m.rest))
  }

  /** Object.keys(record).sort(), carrying the values along. */
  function Sort(m: Members): (r: Members)
    ensures MembersSize(r) == MembersSize(m)
  {
    if m.NoMembers? then m else Insert(m.key, m.value, Sort(m.rest))
  }

  /** The filter that removes undefined members. */
  function DropUndef(m: Members): (r: Members)
    ensures MembersSize(r) <= MembersSize(m)
  {
    match m
    case NoMembers => m
    case Member(key, value, rest) => if value == Undef then DropUndef(rest) else Member(key, value, DropUndef(rest))
  }

  predicate Sorted(m: Members) {
    m.Member? && m.rest.Member? ==> Less(m.key, m.rest.key) && Sorted(m.rest)
  }

  lemma {:induction false} InsertGet(k: Text, v: Json, m: Members, q: Text)
    requires !HasKey(m, k)
    ensures Get(Insert(k, v, m), q) == if q == k then v else Get(m, q)
    ensures HasKey(Insert(k, v, m), q) <==> q == k || HasKey(m, q)
    ensures Plain(v) && PlainMembers(m) ==> PlainMembers(Insert(k, v, m))
  {
    if m.Member? && Less(m.key, k) {
      InsertGet(k, v, m.rest, q);
    }
  }

  lemma {:induction false} InsertSorted(k: Text, v: Json, m: Members)
    requires !HasKey(m, k) && Sorted(m)
    ensures Sorted(Insert(k, v, m))
  {
    if m.Member? {
      LessIsTotal(m.key, k);
      if Less(m.key, k) {
        InsertSorted(k, v, m.rest);
      }
    }
  }

  lemma {:induction false} SortGet(m: Members, q: Text)
    requires DistinctKeys(m)
    ensures Get(Sort(m), q) == Get(m, q)
    ensures HasKey(Sort(m), q) <==> HasKey(m, q)
    ensures PlainMembers(m) ==> PlainMembers(Sort(m))
  {
    if m.Member? {
      SortGet(m.rest, q);
      SortGet(m.rest, m.key);
      InsertGet(m.key, m.value, Sort(m.rest), q);
    }
  }

  lemma {:induction false} SortIsSorted(m: Members)
    requires DistinctKeys(m)
    ensures Sorted(Sort(m))
  {
    if m.Member? {
      SortIsSorted(m.rest);
      SortGet(m.rest, m.key);
      InsertSorted(m.key, m.value, Sort(m.rest));
    }
  }

  lemma {:induction false} SortedBelow(m: Members, q: Text)
    requires Sorted(m) && m.Member? && HasKey(m.rest, q)
    ensures Less(m.key, q)
  {
    if m.rest.key != q {
      SortedBelow(m.rest, q);
      LessIsTransitive(m.key, m.rest.key, q);
    }
  }

  lemma {:induction false} SortedIsDistinct(m: Members)
    requires Sorted(m)
    ensures DistinctKeys(m)
  {
    if m.Member? {
      SortedIsDistinct(m.rest);
      if HasKey(m.rest, m.key) {
        SortedBelow(m, m.key);
        LessIsTotal(m.key, m.key);
      }
    }
  }

  lemma {:induction false} DropUndefGet(m: Members, q: Text)
    requires Sorted(m)
    ensures Get(DropUndef(m), q) == Get(m, q)
    ensures HasKey(DropUndef(m), q) <==> Get(m, q) != Undef
    ensures PlainMembers(m) ==> PlainMembers(DropUndef(m))
  {
    if m.Member? {
      DropUndefGet(m.rest, q);
      SortedIsDistinct(m);
    }
  }

  lemma {:induction false} DropUndefSorted(m: Members)
    requires Sorted(m)
    ensures Sorted(DropUndef(m))
  {
    if m.Member? {
      DropUndefSorted(m.rest);
      var tail := DropUndef(m.rest);
      if m.value != Undef && tail.Member? {
        DropUndefGet(m.rest, tail.key);
        SortedBelow(m, tail.key);
      }
    }
  }

  // ---- canonical form ----

  /** The members that canonicalJson prints, in the order it prints them. */
  function Tidy(m: Members): (r: Members)
    ensures MembersSize(r) <= MembersSize(m)
  {
    DropUndef(Sort(m))
  }

  /** The value that a canonical text denotes. */
  function Canon(v: Json): Json
    decreases Size(v)
  {
    match v
    case Arr(items) => Arr(CanonItems(items))
    case Obj(members) => Obj(CanonMembers(Tidy(members)))
    case _ => v
  }

  function CanonItems(items: Items): Items
    decreases ItemsSize(items)
  {
    match items
    case NoItems => NoItems
    case Item(head, tail) => Item(Canon(head), CanonItems(tail))
  }

  function CanonMembers(m: Members): Members
    decreases MembersSize(m)
  {
    match m
    case NoMembers => NoMembers
    case Member(key, value, rest) => Member(key, Canon(value), CanonMembers(rest))
  }

  lemma {:induction false} CanonMembersGet(m: Members, q: Text)
    ensures Get(CanonMembers(m), q) == Canon(Get(m, q))
    ensures HasKey(CanonMembers(m), q) <==> HasKey(m, q)
  {
    if m.Member? {
      CanonMembersGet(m.rest, q);
    }
  }

  lemma {:induction false} CanonMembersSorted(m: Members)
    requires Sorted(m)
    ensures Sorted(CanonMembers(m))
  {
    if m.Member? {
      CanonMembersSorted(m.rest);
    }
  }

  /** The keys in the order written. */
  function KeyList(m: Members): seq<Text> {
    if m.NoMembers? then [] else [m.key] + KeyList(m.rest)
  }

  lemma {:induction false} KeyListHas(m: Members, i: nat)
    requires i < |KeyList(m)|
    ensures HasKey(m, KeyList(m)[i])
  {
    if i > 0 {
      KeyListHas(m.rest, i - 1);
    }
  }

  /** Sorted members have their keys in the order of section 3.2.3 of RFC 8785. */
  lemma {:induction false} SortedKeys(m: Members, i: nat, j: nat)
    requires Sorted(m) && i < j < |KeyList(m)|
    ensures Before(KeyList(m)[i], KeyList(m)[j])
  {
    hide Less;
    if i == 0 {
      KeyListHas(m.rest, j - 1);
      SortedBelow(m, KeyList(m)[j]);
      LessIsBefore(m.key, KeyList(m)[j]);
    } else {
      SortedKeys(m.rest, i - 1, j - 1);
    }
  }

  /** The canonical members: strictly sorted, and reading any key gives the canonical form of what was there. */
  lemma {:induction false} TidyMembers(m: Members, q: Text)
    requires DistinctKeys(m)
    ensures Sorted(CanonMembers(Tidy(m)))
    ensures Get(CanonMembers(Tidy(m)), q) == Canon(Get(m, q))
    ensures HasKey(CanonMembers(Tidy(m)), q) <==> Get(m, q) != Undef
    ensures PlainMembers(m) ==> PlainMembers(Tidy(m))
  {
    hide Insert, Less;
    SortGet(m, q);
    SortIsSorted(m);
    DropUndefGet(Sort(m), q);
    DropUndefSorted(Sort(m));
    CanonMembersGet(Tidy(m), q);
    CanonMembersSorted(Tidy(m));
  }

  /** The keys of a canonical object ascend in lexicographic order of code units. */
  lemma {:induction false} CanonicalKeysAscend(m: Members, i: nat, j: nat)
    requires DistinctKeys(m) && i < j < |KeyList(CanonMembers(Tidy(m)))|
    ensures Before(KeyList(CanonMembers(Tidy(m)))[i], KeyList(CanonMembers(Tidy(m)))[j])
  {
    hide Less, Insert, CanonMembers, Tidy, KeyList, Sorted;
    TidyMembers(m, []);
    SortedKeys(CanonMembers(Tidy(m)), i, j);
  }

  // ---- equality up to key order and undefined members ----

  ghost predicate Same(v: Json, w: Json)
    decreases Size(v)
  {
    match v
    case Arr(a) => w.Arr? && SameItems(a, w.items)
    case Obj(a) => w.Obj? && forall k: Text :: Same(Get(a, k), Get(w.members, k))
    case _ => v == w
  }

  ghost predicate SameItems(a: Items, b: Items)
    decreases ItemsSize(a)
  {
    match a
    case NoItems => b.NoItems?
    case Item(head, tail) => b.Item? && Same(head, b.head) && SameItems(tail, b.tail)
  }

  /** Strictly sorted members are determined by what each key reads. */
  lemma {:induction false} SortedExtensional(a: Members, b: Members)
    requires Sorted(a) && Sorted(b)
    requires forall k: Text :: HasKey(a, k) <==> HasKey(b, k)
    requires forall k: Text :: Get(a, k) == Get(b, k)
    ensures a == b
  {
    SortedIsDistinct(a);
    SortedIsDistinct(b);
    if a.NoMembers? || b.NoMembers? {
      assert a.Member? ==> HasKey(a, a.key);
      assert b.Member? ==> HasKey(b, b.key);
    } else {
      SameFirstKey(a, b);
      assert Get(a, a.key) == Get(b, a.key);
      forall k: Text
        ensures HasKey(a.rest, k) <==> HasKey(b.rest, k)
        ensures Get(a.rest, k) == Get(b.rest, k)
      {
        assert HasKey(a, k) <==> HasKey(b, k);
        assert Get(a, k) == Get(b, k);
        if k == a.key {
          MissingReadsUndef(a.rest, k);
          MissingReadsUndef(b.rest, k);
        }
      }
      SortedExtensional(a.rest, b.rest);
    }
  }

  lemma {:induction false} MissingReadsUndef(m: Members, k: Text)
    ensures !HasKey(m, k) ==> Get(m, k) == Undef
  {
    if m.Member? {
      MissingReadsUndef(m.rest, k);
    }
  }

  lemma {:induction false} SameFirstKey(a: Members, b: Members)
    requires Sorted(a) && Sorted(b) && a.Member? && b.Member?
    requires forall k: Text :: HasKey(a, k) <==> HasKey(b, k)
    ensures a.key == b.key
  {
    hide Less;
    assert HasKey(a, a.key) && HasKey(b, b.key);
    assert HasKey(b, a.key) && HasKey(a, b.key);
    if a.key != b.key {
      SortedBelow(a, b.key);
      SortedBelow(b, a.key);
      LessIsTotal(a.key, b.key);
    }
  }

  /** Canonical forms agree exactly when the values are equal up to key order and undefined members. */
  lemma {:induction false} CanonIffSame(v: Json, w: Json)
    requires Plain(v) && Plain(w)
    ensures Canon(v) == Canon(w) <==> Same(v, w)
    decreases Size(v), 0
  {
    match v {
      case Arr(a) =>
        if w.Arr? {
          CanonItemsIffSame(a, w.items);
        }
      case Obj(a) =>
        if w.Obj? {
          CanonObjIffSame(a, w.members);
        }
      case _ =>
    }
  }

  lemma {:induction false} CanonItemsIffSame(a: Items, b: Items)
    requires PlainItems(a) && PlainItems(b)
    ensures CanonItems(a) == CanonItems(b) <==> SameItems(a, b)
    decreases ItemsSize(a), 0
  {
    if a.Item? && b.Item? {
      CanonIffSame(a.head, b.head);
      CanonItemsIffSame(a.tail, b.tail);
    }
  }

  lemma {:induction false} CanonObjIffSame(a: Members, b: Members)
    requires DistinctKeys(a) && DistinctKeys(b) && PlainMembers(a) && PlainMembers(b)
    ensures CanonMembers(Tidy(a)) == CanonMembers(Tidy(b)) <==> Same(Obj(a), Obj(b))
    decreases MembersSize(a), 1
  {
    hide Tidy, CanonMembers, Sorted, HasKey, Canon;
    var ca, cb := CanonMembers(Tidy(a)), CanonMembers(Tidy(b));
    forall k: Text
      ensures Get(ca, k) == Get(cb, k) <==> Same(Get(a, k), Get(b, k))
      ensures HasKey(ca, k) <==> Get(ca, k) != Undef
      ensures HasKey(cb, k) <==> Get(cb, k) != Undef
    {
      TidyMembers(a, k);
      TidyMembers(b, k);
      CanonUndef(Get(a, k));
      CanonUndef(Get(b, k));
      CanonIffSame(Get(a, k), Get(b, k));
    }
    if Same(Obj(a), Obj(b)) {
      TidyMembers(a, []);
      TidyMembers(b, []);
      forall k: Text ensures Get(ca, k) == Get(cb, k) {
        assert Same(Get(a, k), Get(b, k));
      }
      SortedExtensional(ca, cb);
    }
  }

  lemma {:induction false} CanonUndef(v: Json)
    ensures Canon(v) == Undef <==> v == Undef
  {
  }

  /** Canonicalising again changes nothing. */
  lemma {:induction false} CanonTwice(v: Json)
    requires Plain(v)
    ensures Plain(Canon(v)) && Canon(Canon(v)) == Canon(v)
    decreases Size(v), 0
  {
    match v {
      case Arr(items) => CanonItemsTwice(items);
      case Obj(m) => CanonMembersTwice(m);
      case _ =>
    }
  }

  lemma {:induction false} CanonItemsTwice(items: Items)
    requires PlainItems(items)
    ensures PlainItems(CanonItems(items)) && CanonItems(CanonItems(items)) == CanonItems(items)
    decreases ItemsSize(items), 0
  {
    if items.Item? {
      CanonTwice(items.head);
      CanonItemsTwice(items.tail);
    }
  }

  lemma {:induction false} CanonMembersTwice(m: Members)
    requires DistinctKeys(m) && PlainMembers(m)
    ensures var c := CanonMembers(Tidy(m));
      DistinctKeys(c) && PlainMembers(c) && CanonMembers(Tidy(c)) == c
    decreases MembersSize(m), 1
  {
    hide Tidy, CanonMembers, Sorted, HasKey, Canon, DistinctKeys, PlainMembers;
    var c := CanonMembers(Tidy(m));
    TidyMembers(m, []);
    SortedIsDistinct(c);
    CanonMembersPlain(Tidy(m));
    var again := CanonMembers(Tidy(c));
    forall q: Text
      ensures Get(again, q) == Get(c, q) && (HasKey(again, q) <==> HasKey(c, q))
    {
      TidyMembers(m, q);
      TidyMembers(c, q);
      CanonUndef(Get(m, q));
      CanonTwice(Get(m, q));
    }
    TidyMembers(c, []);
    SortedExtensional(again, c);
  }

  lemma {:induction false} CanonMembersPlain(m: Members)
    requires PlainMembers(m)
    ensures PlainMembers(CanonMembers(m))
    decreases MembersSize(m), 0
  {
    if m.Member? {
      CanonTwice(m.value);
      CanonMembersPlain(m.rest);
    }
  }
}
