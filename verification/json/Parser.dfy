/** JSON.parse, after section 2 to 7 of RFC 8259; numbers are integers that a JavaScript number holds exactly. */
module Parser {
  import opened Options
  import opened Text
  import opened Json
  import opened Printer

  function SkipBlanks(t: Text): (r: Text)
    ensures |r| <= |t|
  {
    if t != [] && t[0] in [32, 9, 10, 13] then SkipBlanks(t[1..]) else t
  }

  function HexValue(u: unit16): Option<int>
  {
    if 48 <= u <= 57 then Some(u - 48)
    else if 97 <= u <= 102 then Some(u - 87)
    else if 65 <= u <= 70 then Some(u - 55)
    else None
  }

  function Hex4(t: Text): (r: Option<int>)
    ensures r.Some? ==> 0 <= r.value < 0x10000
  {
    if |t| < 4 then None
    else
      var a, b, c, d := HexValue(t[0]), HexValue(t[1]), HexValue(t[2]), HexValue(t[3]);
      if a.Some? && b.Some? && c.Some? && d.Some? then
        Some(a.value * 4096 + b.value * 256 + c.value * 16 + d.value)
      else None
  }

  /** The code unit behind a backslash and one letter, other than u. */
  function Unescape(e: unit16): Option<unit16> {
    if e == 34 || e == 92 || e == 47 then Some(e)
    else if e == 98 then Some(8)
    else if e == 102 then Some(12)
    else if e == 110 then Some(10)
    else if e == 114 then Some(13)
    else if e == 116 then Some(9)
    else None
  }

  /** The rest of a string after its opening quote: its code units and what follows the closing quote. */
  function ParseChars(t: Text): (r: Option<(Text, Text)>)
    ensures r.Some? ==> |r.value.1| < |t|
  {
    if t == [] then None
    else if t[0] == 34 then Some(([], t[1..]))
    else if t[0] == 92 then
      if |t| < 2 then None
      else if t[1] == 117 then
        var u := Hex4(t[2..]);
        if u.None? then None else Prepend(u.value, ParseChars(t[6..]))
      else
        var u := Unescape(t[1]);
        if u.None? then None else Prepend(u.value, ParseChars(t[2..]))
    else if t[0] < 32 then None
    else Prepend(t[0], ParseChars(t[1..]))
  }

  function Prepend(u: unit16, r: Option<(Text, Text)>): Option<(Text, Text)> {
    if r.None? then None else Some(([u] + r.value.0, r.value.1))
  }

  predicate IsDigit(u: unit16) { 48 <= u <= 57 }

  function ReadDigits(t: Text, acc: nat): (r: (nat, Text))
    ensures |r.1| <= |t|
  {
    if t != [] && IsDigit(t[0]) then ReadDigits(t[1..], 10 * acc + (t[0] - 48)) else (acc, t)
  }

  /** An unsigned number: no leading zero, and neither a fraction nor an exponent in this model. */
  function ParseNat(t: Text): (r: Option<(nat, Text)>)
    ensures r.Some? ==> |r.value.1| < |t|
  {
    if t == [] || !IsDigit(t[0]) then None
    else
      var (n, rest) := if t[0] == 48 then (0, t[1..]) else ReadDigits(t[1..], t[0] - 48);
      if rest != [] && rest[0] in [46, 69, 101] then None else Some((n, rest))
  }

  function ParseNumber(t: Text): (r: Option<(Json, Text)>)
    ensures r.Some? ==> |r.value.1| < |t|
  {
    var negative := t != [] && t[0] == 45;
    var n := ParseNat(if negative then t[1..] else t);
    if n.None? || n.value.0 > 0x1F_FFFF_FFFF_FFFF then None
    else Some((Num(if negative then 0 - n.value.0 else n.value.0), n.value.1))
  }

  function ParseWord(t: Text, word: Text, v: Json): (r: Option<(Json, Text)>)
    requires word != []
    ensures r.Some? ==> |r.value.1| < |t|
  {
    if |word| <= |t| && t[..|word|] == word then Some((v, t[|word|..])) else None
  }

  /** obj[key] = value on an object under construction: a repeated key keeps its place and takes the new value. */
  function Put(m: Members, key: Text, value: Json): Members {
    match m
    case NoMembers => Member(key, value, NoMembers)
    case Member(k, v, rest) => if k == key then Member(k, value, rest) else Member(k, v, Put(rest, key, value))
  }

  function ParseValue(t: Text): (r: Option<(Json, Text)>)
    ensures r.Some? ==> |r.value.1| < |t|
    decreases |t|, 0
  {
    var s := SkipBlanks(t);
    if s == [] then None
    else if s[0] == 34 then
      var c := ParseChars(s[1..]);
      if c.None? then None else Some((Str(c.value.0), c.value.1))
    else if s[0] == 91 then
      var inside := SkipBlanks(s[1..]);
      if inside != [] && inside[0] == 93 then Some((Arr(NoItems), inside[1..]))
      else
        var items := ParseItems(s[1..]);
        if items.None? then None else Some((Arr(items.value.0), items.value.1))
    else if s[0] == 123 then
      var inside := SkipBlanks(s[1..]);
      if inside != [] && inside[0] == 125 then Some((Obj(NoMembers), inside[1..]))
      else
        var members := ParseMembers(s[1..], NoMembers);
        if members.None? then None else Some((Obj(members.value.0), members.value.1))
    else if s[0] == 116 then ParseWord(s, TRUE, Bool(true))
    else if s[0] == 102 then ParseWord(s, FALSE, Bool(false))
    else if s[0] == 110 then ParseWord(s, NULL, Null)
    else ParseNumber(s)
  }

  function ParseItems(t: Text): (r: Option<(Items, Text)>)
    ensures r.Some? ==> |r.value.1| < |t|
    decreases |t|, 1
  {
    var v := ParseValue(t);
    if v.None? then None
    else
      var s := SkipBlanks(v.value.1);
      if s == [] then None
      else if s[0] == 93 then Some((Item(v.value.0, NoItems), s[1..]))
      else if s[0] == 44 then
        var more := ParseItems(s[1..]);
        if more.None? then None else Some((Item(v.value.0, more.value.0), more.value.1))
      else None
  }

  function ParseMembers(t: Text, sofar: Members): (r: Option<(Members, Text)>)
    ensures r.Some? ==> |r.value.1| < |t|
    decreases |t|, 1
  {
    var s := SkipBlanks(t);
    if s == [] || s[0] != 34 then None
    else
      var k := ParseChars(s[1..]);
      if k.None? then None
      else
        var colon := SkipBlanks(k.value.1);
        if colon == [] || colon[0] != 58 then None
        else
          var v := ParseValue(colon[1..]);
          if v.None? then None
          else
            var now := Put(sofar, k.value.0, v.value.0);
            var end := SkipBlanks(v.value.1);
            if end == [] then None
            else if end[0] == 125 then Some((now, end[1..]))
            else if end[0] == 44 then ParseMembers(end[1..], now)
            else None
  }

  function ParseJson(t: Text): Option<Json> {
    var v := ParseValue(t);
    if v.None? || SkipBlanks(v.value.1) != [] then None else Some(v.value.0)
  }
}
