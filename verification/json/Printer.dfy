/** canonicalJson and toAscii: the text that is hashed and signed. */
module Printer {
  import opened Options
  import opened Text
  import opened Json

  function HexDigit(n: int): unit16
    requires 0 <= n < 16
  {
    if n < 10 then 48 + n else 87 + n
  }

  /** A four-digit lower-case escape, backslash u first. */
  function Escape4(u: unit16): (t: Text)
    ensures |t| == 6
  {
    [92, 117, HexDigit(u / 4096), HexDigit(u / 256 % 16), HexDigit(u / 16 % 16), HexDigit(u % 16)]
  }

  predicate IsHigh(u: unit16) { 0xD800 <= u < 0xDC00 }

  predicate IsLow(u: unit16) { 0xDC00 <= u < 0xE000 }

  /** JSON.stringify on one code unit that is not half of a surrogate pair. */
  function QuoteUnit(u: unit16): Text {
    if u == 34 then [92, 34]
    else if u == 92 then [92, 92]
    else if u == 8 then [92, 98]
    else if u == 9 then [92, 116]
    else if u == 10 then [92, 110]
    else if u == 12 then [92, 102]
    else if u == 13 then [92, 114]
    else if u < 32 || IsHigh(u) || IsLow(u) then Escape4(u)
    else [u]
  }

  function QuoteBody(s: Text): Text {
    if s == [] then []
    else if IsHigh(s[0]) && |s| > 1 && IsLow(s[1]) then [s[0], s[1]] + QuoteBody(s[2..])
    else QuoteUnit(s[0]) + QuoteBody(s[1..])
  }

  function Quote(s: Text): Text {
    [34] + QuoteBody(s) + [34]
  }

  function Decimal(n: nat): (t: Text)
    ensures t != []
  {
    if n < 10 then [48 + n] else Decimal(n / 10) + [48 + n % 10]
  }

  function Number(n: int): Text {
    if n < 0 then [45] + Decimal(-n) else Decimal(n)
  }

  const TRUE: Text := [116, 114, 117, 101]
  const FALSE: Text := [102, 97, 108, 115, 101]
  const NULL: Text := [110, 117, 108, 108]

  /** canonicalJson; None is the exception on an undefined value outside an object member. */
  function CanonicalJson(v: Json): Option<Text>
    decreases Size(v), 0
  {
    match v
    case Undef => None
    case Null => Some(NULL)
    case Bool(b) => Some(if b then TRUE else FALSE)
    case Num(n) => Some(Number(n))
    case Str(s) => Some(Quote(s))
    case Arr(items) =>
      if items.NoItems? then Some([91, 93])
      else
        var body := PrintItems(items);
        if body.None? then None else Some([91] + body.value)
    case Obj(members) =>
      var tidy := Tidy(members);
      if tidy.NoMembers? then Some([123, 125])
      else
        var body := PrintMembers(tidy);
        if body.None? then None else Some([123] + body.value)
  }

  /** The items joined by commas, and the closing bracket. */
  function PrintItems(items: Items): Option<Text>
    requires items.Item?
    decreases ItemsSize(items), 1
  {
    var first := CanonicalJson(items.head);
    if first.None? then None
    else if items.tail.NoItems? then Some(first.value + [93])
    else
      var more := PrintItems(items.tail);
      if more.None? then None else Some(first.value + [44] + more.value)
  }

  function PrintMembers(m: Members): Option<Text>
    requires m.Member?
    decreases MembersSize(m), 1
  {
    var value := CanonicalJson(m.value);
    if value.None? then None
    else
      var first := Quote(m.key) + [58] + value.value;
      if m.rest.NoMembers? then Some(first + [125])
      else
        var more := PrintMembers(m.rest);
        if more.None? then None else Some(first + [44] + more.value)
  }

  function ToAscii(t: Text): Text {
    if t == [] then []
    else (if t[0] >= 0x80 then Escape4(t[0]) else [t[0]]) + ToAscii(t[1..])
  }

  lemma {:induction false} ToAsciiConcat(a: Text, b: Text)
    ensures ToAscii(a + b) == ToAscii(a) + ToAscii(b)
  {
    if a == [] {
      assert a + b == b;
    } else {
      assert (a + b)[1..] == a[1..] + b;
      ToAsciiConcat(a[1..], b);
    }
  }

  lemma {:induction false} ToAsciiFixes(t: Text)
    requires forall i :: 0 <= i < |t| ==> t[i] < 0x80
    ensures ToAscii(t) == t
  {
    if t == [] {
    } else {
      ToAsciiFixes(t[1..]);
      assert t == [t[0]] + t[1..];
    }
  }

  /** What goes out is ASCII. */
  lemma {:induction false} ToAsciiIsAscii(t: Text)
    ensures forall i :: 0 <= i < |ToAscii(t)| ==> ToAscii(t)[i] < 0x80
  {
    if t != [] {
      ToAsciiIsAscii(t[1..]);
      var head := if t[0] >= 0x80 then Escape4(t[0]) else [t[0]];
      assert ToAscii(t) == head + ToAscii(t[1..]);
    }
  }

  /** No undefined value is left once object members that are undefined have been dropped. */
  predicate Printable(v: Json) {
    match v
    case Undef => false
    case Arr(items) => PrintableItems(items)
    case Obj(members) => PrintableMembers(members)
    case _ => true
  }

  predicate PrintableItems(items: Items) {
    items.Item? ==> Printable(items.head) && PrintableItems(items.tail)
  }

  predicate PrintableMembers(m: Members) {
    m.Member? ==> (m.value == Undef || Printable(m.value)) && PrintableMembers(m.rest)
  }
}
