/** The canonical ASCII text of a value parses back to its canonical form, so it is unambiguous. */
module RoundTrip {
  import opened Options
  import opened Text
  import opened Json
  import opened Printer
  import opened Parser

  // ---- strings ----

  lemma HexDigitReads(n: int)
    requires 0 <= n < 16
    ensures HexValue(HexDigit(n)) == Some(n)
  {
  }

  lemma Nibbles(u: unit16)
    ensures u == u / 4096 * 4096 + u / 256 % 16 * 256 + u / 16 % 16 * 16 + u % 16
    ensures 0 <= u / 4096 < 16
  {
    var a, b, c := u / 16, u / 256, u / 4096;
    assert b == a / 16 && c == b / 16;
    assert u == 16 * a + u % 16 && a == 16 * b + a % 16 && b == 16 * c + b % 16;
  }

  lemma {:induction false} Hex4Reads(u: unit16, tail: Text)
    ensures Hex4(Escape4(u)[2..] + tail) == Some(u)
  {
    hide HexDigit, HexValue;
    Nibbles(u);
    HexDigitReads(u / 4096);
    HexDigitReads(u / 256 % 16);
    HexDigitReads(u / 16 % 16);
    HexDigitReads(u % 16);
  }

  lemma {:induction false} Escape4Reads(u: unit16, tail: Text)
    ensures ParseChars(Escape4(u) + tail) == Prepend(u, ParseChars(tail))
  {
    hide Hex4, HexDigit;
    var t := Escape4(u) + tail;
    assert t[6..] == tail;
    assert t[2..] == Escape4(u)[2..] + tail;
    Hex4Reads(u, tail);
  }

  /** The ASCII form of one quoted code unit: itself, a short escape, or a four-digit escape. */
  lemma QuoteUnitWire(u: unit16)
    ensures ToAscii(QuoteUnit(u)) == if u >= 0x80 then Escape4(u) else QuoteUnit(u)
  {
    if u >= 0x80 && !IsHigh(u) && !IsLow(u) {
      assert ToAscii([u]) == Escape4(u) + ToAscii([]);
    } else {
      assert forall i :: 0 <= i < |QuoteUnit(u)| ==> QuoteUnit(u)[i] < 0x80;
      ToAsciiFixes(QuoteUnit(u));
    }
  }

  lemma {:induction false} QuoteUnitReads(u: unit16, tail: Text)
    ensures ParseChars(ToAscii(QuoteUnit(u)) + tail) == Prepend(u, ParseChars(tail))
  {
    hide Escape4, ToAscii, Hex4;
    QuoteUnitWire(u);
    Escape4Reads(u, tail);
    var t := QuoteUnit(u) + tail;
    if u < 0x80 && QuoteUnit(u) != Escape4(u) {
      assert t[|QuoteUnit(u)|..] == tail;
    }
  }

  lemma {:induction false} BodyReads(s: Text, rest: Text)
    ensures ParseChars(ToAscii(QuoteBody(s)) + ([34] + rest)) == Some((s, rest))
  {
    hide ParseChars, QuoteUnit, ToAscii, Escape4;
    var tail := [34] + rest;
    if s == [] {
      EmptyBodyReads(rest);
    } else if IsHigh(s[0]) && |s| > 1 && IsLow(s[1]) {
      var body := QuoteBody(s[2..]);
      PairWire(s[0], s[1], body);
      assert Escape4(s[0]) + (Escape4(s[1]) + ToAscii(body)) + tail
        == Escape4(s[0]) + (Escape4(s[1]) + (ToAscii(body) + tail));
      Escape4Reads(s[0], Escape4(s[1]) + (ToAscii(body) + tail));
      Escape4Reads(s[1], ToAscii(body) + tail);
      BodyReads(s[2..], rest);
      assert s == [s[0]] + ([s[1]] + s[2..]);
    } else {
      var body := QuoteBody(s[1..]);
      ToAsciiConcat(QuoteUnit(s[0]), body);
      assert ToAscii(QuoteUnit(s[0])) + ToAscii(body) + tail == ToAscii(QuoteUnit(s[0])) + (ToAscii(body) + tail);
      QuoteUnitReads(s[0], ToAscii(body) + tail);
      BodyReads(s[1..], rest);
      assert s == [s[0]] + s[1..];
    }
  }

  lemma EmptyBodyReads(rest: Text)
    ensures ParseChars(ToAscii(QuoteBody([])) + ([34] + rest)) == Some(([], rest))
  {
    assert ToAscii(QuoteBody([])) + ([34] + rest) == [34] + rest;
  }

  lemma PairWire(hi: unit16, lo: unit16, body: Text)
    requires IsHigh(hi) && IsLow(lo)
    ensures ToAscii([hi, lo] + body) == Escape4(hi) + (Escape4(lo) + ToAscii(body))
  {
    assert ([hi, lo] + body)[1..] == [lo] + body;
    assert ([lo] + body)[1..] == body;
  }

  /** A quoted string as it goes out: quote, ASCII body, quote. */
  lemma QuoteWire(s: Text)
    ensures ToAscii(Quote(s)) == [34] + (ToAscii(QuoteBody(s)) + [34])
  {
    ToAsciiConcat([34] + QuoteBody(s), [34]);
    ToAsciiConcat([34], QuoteBody(s));
    ToAsciiFixes([34]);
    assert [34] + ToAscii(QuoteBody(s)) + [34] == [34] + (ToAscii(QuoteBody(s)) + [34]);
  }

  lemma QuoteReads(s: Text, rest: Text)
    ensures var t := ToAscii(Quote(s)) + rest;
      t != [] && t[0] == 34 && ParseChars(t[1..]) == Some((s, rest))
  {
    hide Quote, QuoteBody, ToAscii, ParseChars;
    QuoteWire(s);
    BodyReads(s, rest);
    var t := ToAscii(Quote(s)) + rest;
    assert t == [34] + (ToAscii(QuoteBody(s)) + ([34] + rest));
  }

  // ---- numbers ----

  /** What may follow a value inside a canonical text. */
  predicate Closes(rest: Text) {
    rest == [] || rest[0] in [44, 93, 125]
  }

  lemma {:induction false} DigitsRead(n: nat, s: Text)
    ensures ReadDigits(Decimal(n) + s, 0) == ReadDigits(s, n)
  {
    if n < 10 {
      assert (Decimal(n) + s)[1..] == s;
    } else {
      var d := [48 + n % 10];
      assert Decimal(n) + s == Decimal(n / 10) + (d + s);
      DigitsRead(n / 10, d + s);
      assert (d + s)[1..] == s;
    }
  }

  lemma {:induction false} DecimalShape(n: nat)
    ensures IsDigit(Decimal(n)[0])
    ensures n > 0 ==> Decimal(n)[0] != 48
    ensures forall i :: 0 <= i < |Decimal(n)| ==> Decimal(n)[i] < 0x80
  {
    if n >= 10 {
      DecimalShape(n / 10);
    }
  }

  lemma NatReads(n: nat, rest: Text)
    requires Closes(rest)
    ensures ParseNat(Decimal(n) + rest) == Some((n, rest))
  {
    var t := Decimal(n) + rest;
    DecimalShape(n);
    if n == 0 {
      assert t[1..] == rest;
    } else {
      DigitsRead(n, rest);
      assert ReadDigits(t, 0) == ReadDigits(t[1..], t[0] - 48);
    }
  }

  lemma NumberReads(n: SafeInt, rest: Text)
    requires Closes(rest)
    ensures ToAscii(Number(n)) == Number(n)
    ensures Number(n) != [] && (Number(n)[0] == 45 || IsDigit(Number(n)[0]))
    ensures ParseNumber(Number(n) + rest) == Some((Num(n), rest))
  {
    hide Decimal, ParseNat, ToAscii;
    var m: nat := if n < 0 then -n else n;
    DecimalShape(m);
    NatReads(m, rest);
    ToAsciiFixes(Number(n));
    if n < 0 {
      assert Number(n) + rest == [45] + (Decimal(m) + rest);
      assert (Number(n) + rest)[1..] == Decimal(m) + rest;
    } else {
      assert (Number(n) + rest)[0] == Decimal(m)[0];
    }
  }

  // ---- values ----

  /** The ASCII text of a value, an item list or a member list. */
  function Wire(v: Json): Text
    requires CanonicalJson(v).Some?
  {
    ToAscii(CanonicalJson(v).value)
  }

  function WireItems(items: Items): Text
    requires items.Item? && PrintItems(items).Some?
  {
    ToAscii(PrintItems(items).value)
  }

  function WireMembers(m: Members): Text
    requires m.Member? && PrintMembers(m).Some?
  {
    ToAscii(PrintMembers(m).value)
  }

  /** A text that starts a value: neither blank nor a closing bracket. */
  predicate Opens(t: Text) {
    t != [] && (t[0] in [34, 45, 91, 102, 110, 116, 123] || IsDigit(t[0]))
  }

  lemma TextOpens(v: Json)
    requires !v.Undef? && !v.Num? && !v.Str? && CanonicalJson(v).Some?
    ensures Opens(Wire(v))
  {
    hide PrintItems, PrintMembers, Tidy;
    assert CanonicalJson(v).value[0] < 0x80;
  }

  lemma WireOpens(v: Json)
    requires CanonicalJson(v).Some?
    ensures Opens(Wire(v))
  {
    hide Number, Quote, PrintItems, PrintMembers, Tidy;
    var t := CanonicalJson(v).value;
    match v {
      case Num(n) =>
        NumberReads(n, []);
        assert Number(n) + [] == Number(n);
      case Str(s) =>
        QuoteReads(s, []);
        assert ToAscii(t) + [] == ToAscii(t);
      case Undef =>
      case _ =>
        TextOpens(v);
    }
  }

  /** An ASCII unit between two texts passes through. */
  lemma JoinWire(a: Text, x: unit16, b: Text)
    requires x < 0x80
    ensures ToAscii(a + [x] + b) == ToAscii(a) + ([x] + ToAscii(b))
  {
    hide ToAscii;
    ToAsciiConcat(a + [x], b);
    ToAsciiConcat(a, [x]);
    ToAsciiFixes([x]);
    assert ToAscii(a) + [x] + ToAscii(b) == ToAscii(a) + ([x] + ToAscii(b));
  }

  lemma EndWire(a: Text, x: unit16)
    requires x < 0x80
    ensures ToAscii(a + [x]) == ToAscii(a) + [x]
  {
    ToAsciiConcat(a, [x]);
    ToAsciiFixes([x]);
  }

  lemma {:induction false} ItemsWire(items: Items)
    requires items.Item? && PrintItems(items).Some?
    ensures CanonicalJson(items.head).Some?
    ensures items.tail.Item? ==> PrintItems(items.tail).Some?
    ensures WireItems(items) ==
      Wire(items.head) + if items.tail.NoItems? then [93] else [44] + WireItems(items.tail)
  {
    hide CanonicalJson, ToAscii;
    var first := CanonicalJson(items.head).value;
    if items.tail.NoItems? {
      EndWire(first, 93);
    } else {
      JoinWire(first, 44, PrintItems(items.tail).value);
    }
  }

  function MembersTail(rest: Members): Text
    requires rest.Member? ==> PrintMembers(rest).Some?
  {
    if rest.NoMembers? then [125] else [44] + WireMembers(rest)
  }

  lemma MembersWire(m: Members)
    requires m.Member? && PrintMembers(m).Some?
    ensures CanonicalJson(m.value).Some?
    ensures m.rest.Member? ==> PrintMembers(m.rest).Some?
    ensures WireMembers(m) == ToAscii(Quote(m.key)) + ([58] + (Wire(m.value) + MembersTail(m.rest)))
  {
    hide CanonicalJson, Quote, ToAscii;
    var key, value := Quote(m.key), CanonicalJson(m.value).value;
    var first := key + [58] + value;
    JoinWire(key, 58, value);
    if m.rest.NoMembers? {
      EndWire(first, 125);
    } else {
      JoinWire(first, 44, PrintMembers(m.rest).value);
    }
    MemberPieces(ToAscii(key), ToAscii(value), MembersTail(m.rest));
  }

  lemma MemberPieces(key: Text, value: Text, tail: Text)
    ensures key + ([58] + value) + tail == key + ([58] + (value + tail))
  {
  }

  lemma BracketWire(open: unit16, body: Text)
    requires open < 0x80
    ensures ToAscii([open] + body) == [open] + ToAscii(body)
  {
    ToAsciiConcat([open], body);
    ToAsciiFixes([open]);
  }

  function Append(a: Members, b: Members): Members {
    if a.NoMembers? then b else Member(a.key, a.value, Append(a.rest, b))
  }

  lemma {:induction false} PutNew(sofar: Members, k: Text, v: Json, more: Members)
    requires !HasKey(sofar, k)
    ensures Append(Put(sofar, k, v), more) == Append(sofar, Member(k, v, more))
    ensures forall q: Text :: HasKey(Put(sofar, k, v), q) <==> q == k || HasKey(sofar, q)
  {
    if sofar.Member? {
      PutNew(sofar.rest, k, v, more);
    }
  }

  lemma {:induction false} AppendNothing(a: Members)
    ensures Append(a, NoMembers) == a
  {
    if a.Member? {
      AppendNothing(a.rest);
    }
  }

  /** Parsing the canonical text of a value, whatever closes it, gives the canonical form. */
  lemma {:induction false} ValueReads(v: Json, rest: Text)
    requires CanonicalJson(v).Some? && Plain(v) && Closes(rest)
    ensures ParseValue(Wire(v) + rest) == Some((Canon(v), rest))
    decreases Size(v), 0
  {
    match v {
      case Num(n) => NumberValueReads(n, rest);
      case Str(s) => StringValueReads(s, rest);
      case Arr(items) =>
        if items.Item? {
          ItemsReads(items, rest);
        }
        ArrayReads(items, rest);
      case Obj(members) =>
        SortIsSorted(members);
        TidyIsPlain(members);
        if Tidy(members).Member? {
          MembersReads(Tidy(members), NoMembers, rest);
        }
        ObjectReads(members, rest);
      case _ => WordReads(v, rest);
    }
  }

  lemma TidyIsPlain(m: Members)
    requires DistinctKeys(m) && PlainMembers(m)
    ensures PlainMembers(Tidy(m)) && DistinctKeys(Tidy(m))
  {
    TidyMembers(m, []);
    SortIsSorted(m);
    DropUndefSorted(Sort(m));
    SortedIsDistinct(Tidy(m));
  }

  lemma NumberValueReads(n: SafeInt, rest: Text)
    requires Closes(rest)
    ensures ParseValue(Wire(Num(n)) + rest) == Some((Num(n), rest))
  {
    hide Number, ParseNumber;
    NumberReads(n, rest);
  }

  lemma StringValueReads(s: Text, rest: Text)
    ensures ParseValue(Wire(Str(s)) + rest) == Some((Str(s), rest))
  {
    hide Quote, ParseChars;
    QuoteReads(s, rest);
  }

  lemma WordReads(v: Json, rest: Text)
    requires v.Null? || v.Bool?
    ensures CanonicalJson(v).Some?
    ensures ParseValue(Wire(v) + rest) == Some((v, rest))
  {
    var word := CanonicalJson(v).value;
    ToAsciiFixes(word);
    assert (word + rest)[..|word|] == word && (word + rest)[|word|..] == rest;
  }

  lemma ArrayReads(items: Items, rest: Text)
    requires CanonicalJson(Arr(items)).Some?
    requires items.Item? ==> PrintItems(items).Some?
    requires items.Item? ==> ParseItems(WireItems(items) + rest) == Some((CanonItems(items), rest))
    ensures ParseValue(Wire(Arr(items)) + rest) == Some((Arr(CanonItems(items)), rest))
  {
    hide PrintItems, ParseItems, CanonItems, Wire;
    var t := Wire(Arr(items)) + rest;
    if items.NoItems? {
      EmptyArrayReads(rest);
    } else {
      NonEmptyArrayWire(items);
      ItemsWireOpens(items);
      assert t == [91] + (WireItems(items) + rest);
      assert t[1..] == WireItems(items) + rest;
    }
  }

  lemma EmptyArrayReads(rest: Text)
    ensures ParseValue(Wire(Arr(NoItems)) + rest) == Some((Arr(CanonItems(NoItems)), rest))
  {
    ToAsciiFixes([91, 93]);
    var t := [91, 93] + rest;
    assert t[1..] == [93] + rest && ([93] + rest)[1..] == rest;
  }

  lemma NonEmptyArrayWire(items: Items)
    requires items.Item? && PrintItems(items).Some?
    ensures CanonicalJson(Arr(items)).Some?
    ensures Wire(Arr(items)) == [91] + WireItems(items)
  {
    BracketWire(91, PrintItems(items).value);
  }

  lemma ItemsWireOpens(items: Items)
    requires items.Item? && PrintItems(items).Some?
    ensures Opens(WireItems(items))
  {
    hide Wire, WireItems, PrintItems, CanonicalJson;
    ItemsWire(items);
    WireOpens(items.head);
  }

  lemma {:induction false} ItemsReads(items: Items, rest: Text)
    requires items.Item? && PrintItems(items).Some? && PlainItems(items)
    ensures ParseItems(WireItems(items) + rest) == Some((CanonItems(items), rest))
    decreases ItemsSize(items), 1
  {
    hide Wire, WireItems, PrintItems, CanonicalJson, Canon, ParseValue;
    ItemsWire(items);
    var t, first := WireItems(items) + rest, Wire(items.head);
    if items.tail.NoItems? {
      var after := [93] + rest;
      assert t == first + after;
      ValueReads(items.head, after);
      assert after[1..] == rest;
    } else {
      var more := WireItems(items.tail) + rest;
      var after := [44] + more;
      assert t == first + after;
      ValueReads(items.head, after);
      assert after[1..] == more;
      ItemsReads(items.tail, rest);
    }
  }

  lemma {:induction false} ObjectReads(members: Members, rest: Text)
    requires CanonicalJson(Obj(members)).Some?
    requires Tidy(members).Member? ==> PrintMembers(Tidy(members)).Some?
    requires Tidy(members).Member? ==>
      ParseMembers(WireMembers(Tidy(members)) + rest, NoMembers) == Some((CanonMembers(Tidy(members)), rest))
    ensures ParseValue(Wire(Obj(members)) + rest) == Some((Obj(CanonMembers(Tidy(members))), rest))
  {
    hide PrintMembers, ParseMembers, CanonMembers, Wire, Tidy;
    var t := Wire(Obj(members)) + rest;
    if Tidy(members).NoMembers? {
      EmptyObjectReads(members, rest);
    } else {
      NonEmptyObjectWire(members);
      MembersWireOpens(Tidy(members));
      assert t == [123] + (WireMembers(Tidy(members)) + rest);
      assert t[1..] == WireMembers(Tidy(members)) + rest;
    }
  }

  lemma EmptyObjectReads(members: Members, rest: Text)
    requires Tidy(members).NoMembers?
    ensures ParseValue(Wire(Obj(members)) + rest) == Some((Obj(CanonMembers(Tidy(members))), rest))
  {
    hide Tidy, ParseMembers, PrintMembers;
    ToAsciiFixes([123, 125]);
    var t := [123, 125] + rest;
    assert t[1..] == [125] + rest && ([125] + rest)[1..] == rest;
  }

  lemma NonEmptyObjectWire(members: Members)
    requires Tidy(members).Member? && PrintMembers(Tidy(members)).Some?
    ensures CanonicalJson(Obj(members)).Some?
    ensures Wire(Obj(members)) == [123] + WireMembers(Tidy(members))
  {
    hide Tidy;
    BracketWire(123, PrintMembers(Tidy(members)).value);
  }

  lemma MembersWireOpens(m: Members)
    requires m.Member? && PrintMembers(m).Some?
    ensures WireMembers(m) != [] && WireMembers(m)[0] == 34
  {
    hide Wire, WireMembers, PrintMembers, CanonicalJson, Quote;
    MembersWire(m);
    QuoteReads(m.key, []);
    assert ToAscii(Quote(m.key)) + [] == ToAscii(Quote(m.key));
  }

  lemma {:induction false} MembersReads(m: Members, sofar: Members, rest: Text)
    requires m.Member? && PrintMembers(m).Some? && PlainMembers(m) && DistinctKeys(m)
    requires forall k: Text :: HasKey(m, k) ==> !HasKey(sofar, k)
    ensures ParseMembers(WireMembers(m) + rest, sofar) == Some((Append(sofar, CanonMembers(m)), rest))
    decreases MembersSize(m), 1
  {
    hide Wire, WireMembers, PrintMembers, CanonicalJson, Canon, ParseValue, ParseChars, ParseMembers, Quote, Put,
      Append, ToAscii;
    MembersWire(m);
    assert HasKey(m, m.key);
    var after := MembersTail(m.rest) + rest;
    ValueReads(m.value, after);
    PutNew(sofar, m.key, Canon(m.value), CanonMembers(m.rest));
    var now := Put(sofar, m.key, Canon(m.value));
    MemberReads(m, sofar, rest);
    if m.rest.NoMembers? {
      AppendNothing(now);
    } else {
      MembersReads(m.rest, now, rest);
    }
  }

  /** One member read, and what is left to read after it. */
  lemma {:induction false} MemberReads(m: Members, sofar: Members, rest: Text)
    requires m.Member? && PrintMembers(m).Some?
    requires CanonicalJson(m.value).Some?
    requires ParseValue(Wire(m.value) + (MembersTail(m.rest) + rest))
      == Some((Canon(m.value), MembersTail(m.rest) + rest))
    ensures var now := Put(sofar, m.key, Canon(m.value));
      ParseMembers(WireMembers(m) + rest, sofar)
        == if m.rest.NoMembers? then Some((now, rest)) else ParseMembers(WireMembers(m.rest) + rest, now)
  {
    hide Wire, WireMembers, PrintMembers, CanonicalJson, Canon, ParseValue, ParseChars, Quote, Put, ToAscii;
    MembersWire(m);
    var t, key, value := WireMembers(m) + rest, ToAscii(Quote(m.key)), Wire(m.value);
    var after := MembersTail(m.rest) + rest;
    assert t == key + ([58] + (value + after));
    QuoteReads(m.key, [58] + (value + after));
    assert ([58] + (value + after))[1..] == value + after;
    if m.rest.NoMembers? {
      assert after[1..] == rest;
    } else {
      assert after[1..] == WireMembers(m.rest) + rest;
    }
  }

  // ---- the canonical form prints like the value ----

  predicate NoUndef(m: Members) {
    m.Member? ==> m.value != Undef && NoUndef(m.rest)
  }

  lemma {:induction false} DropUndefLeavesNone(m: Members)
    ensures NoUndef(CanonMembers(DropUndef(m)))
  {
    if m.Member? {
      DropUndefLeavesNone(m.rest);
    }
  }

  lemma {:induction false} TidyOfTidy(m: Members)
    requires Sorted(m) && NoUndef(m)
    ensures Tidy(m) == m
  {
    if m.Member? {
      TidyOfTidy(m.rest);
      SortOfSorted(m);
      SortOfSorted(m.rest);
    }
  }

  lemma {:induction false} SortOfSorted(m: Members)
    requires Sorted(m)
    ensures Sort(m) == m
  {
    if m.Member? {
      SortOfSorted(m.rest);
      if m.rest.Member? {
        LessIsTotal(m.key, m.rest.key);
      }
    }
  }

  lemma TidyCanonical(m: Members)
    requires DistinctKeys(m)
    ensures Tidy(CanonMembers(Tidy(m))) == CanonMembers(Tidy(m))
  {
    TidyMembers(m, []);
    DropUndefLeavesNone(Sort(m));
    TidyOfTidy(CanonMembers(Tidy(m)));
  }

  lemma {:induction false} CanonPrintsAlike(v: Json)
    requires Plain(v)
    ensures CanonicalJson(Canon(v)) == CanonicalJson(v)
    decreases Size(v), 0
  {
    match v {
      case Arr(items) => ItemsPrintAlike(items);
      case Obj(members) =>
        TidyIsPlain(members);
        TidyCanonical(members);
        MembersPrintAlike(Tidy(members));
        ObjectPrintsAlike(members);
      case _ =>
    }
  }

  lemma ObjectPrintsAlike(members: Members)
    requires Tidy(CanonMembers(Tidy(members))) == CanonMembers(Tidy(members))
    requires Tidy(members).Member? ==> PrintMembers(CanonMembers(Tidy(members))) == PrintMembers(Tidy(members))
    ensures CanonicalJson(Canon(Obj(members))) == CanonicalJson(Obj(members))
  {
    hide Tidy, PrintMembers;
  }

  lemma {:induction false} ItemsPrintAlike(items: Items)
    requires PlainItems(items)
    ensures items.Item? ==> PrintItems(CanonItems(items)) == PrintItems(items)
    decreases ItemsSize(items), 1
  {
    if items.Item? {
      CanonPrintsAlike(items.head);
      ItemsPrintAlike(items.tail);
    }
  }

  lemma {:induction false} MembersPrintAlike(m: Members)
    requires PlainMembers(m)
    ensures m.Member? ==> PrintMembers(CanonMembers(m)) == PrintMembers(m)
    decreases MembersSize(m), 1
  {
    if m.Member? {
      CanonPrintsAlike(m.value);
      MembersPrintAlike(m.rest);
    }
  }

  // ---- theorems ----

  /** JSON.parse after canonicalJson and toAscii is the identity up to key order and undefined members. */
  lemma CanonicalRoundTrip(v: Json)
    requires Plain(v) && CanonicalJson(v).Some?
    ensures ParseJson(ToAscii(CanonicalJson(v).value)) == Some(Canon(v))
  {
    hide ParseValue, CanonicalJson, Canon, Plain;
    ValueReads(v, []);
    assert Wire(v) + [] == Wire(v);
  }

  /** Two values have one canonical text exactly when they are equal up to key order and undefined members. */
  lemma CanonicalUnambiguous(v: Json, w: Json)
    requires Plain(v) && Plain(w) && CanonicalJson(v).Some? && CanonicalJson(w).Some?
    ensures ToAscii(CanonicalJson(v).value) == ToAscii(CanonicalJson(w).value) <==> Same(v, w)
  {
    hide CanonicalJson, Canon, Plain, ParseJson, ToAscii, Same;
    CanonicalRoundTrip(v);
    CanonicalRoundTrip(w);
    CanonIffSame(v, w);
    CanonPrintsAlike(v);
    CanonPrintsAlike(w);
  }

  // ---- when canonicalJson throws ----

  lemma {:induction false} InsertPrintable(k: Text, v: Json, m: Members)
    ensures PrintableMembers(Insert(k, v, m)) <==> (v == Undef || Printable(v)) && PrintableMembers(m)
  {
    if m.Member? && Less(m.key, k) {
      InsertPrintable(k, v, m.rest);
    }
  }

  lemma {:induction false} SortPrintable(m: Members)
    ensures PrintableMembers(Sort(m)) <==> PrintableMembers(m)
  {
    if m.Member? {
      SortPrintable(m.rest);
      InsertPrintable(m.key, m.value, Sort(m.rest));
    }
  }

  lemma {:induction false} DropUndefPrintable(m: Members)
    ensures PrintableMembers(DropUndef(m)) <==> PrintableMembers(m)
  {
    if m.Member? {
      DropUndefPrintable(m.rest);
    }
  }

  lemma {:induction false} DropUndefHasNone(m: Members)
    ensures NoUndef(DropUndef(m))
  {
    if m.Member? {
      DropUndefHasNone(m.rest);
    }
  }

  /** canonicalJson throws exactly on an undefined value that is not an object member. */
  lemma {:induction false} PrintsIffPrintable(v: Json)
    ensures CanonicalJson(v).Some? <==> Printable(v)
    decreases Size(v), 0
  {
    match v {
      case Arr(items) => ItemsPrintIffPrintable(items);
      case Obj(members) =>
        SortPrintable(members);
        DropUndefPrintable(Sort(members));
        DropUndefHasNone(Sort(members));
        MembersPrintIffPrintable(Tidy(members));
      case _ =>
    }
  }

  lemma {:induction false} ItemsPrintIffPrintable(items: Items)
    ensures items.Item? ==> (PrintItems(items).Some? <==> PrintableItems(items))
    decreases ItemsSize(items), 1
  {
    if items.Item? {
      PrintsIffPrintable(items.head);
      ItemsPrintIffPrintable(items.tail);
    }
  }

  lemma {:induction false} MembersPrintIffPrintable(m: Members)
    requires NoUndef(m)
    ensures m.Member? ==> (PrintMembers(m).Some? <==> PrintableMembers(m))
    decreases MembersSize(m), 1
  {
    if m.Member? {
      PrintsIffPrintable(m.value);
      MembersPrintIffPrintable(m.rest);
    }
  }
}
