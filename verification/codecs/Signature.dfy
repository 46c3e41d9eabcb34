/** The signature field: strict base64url, and the text that is signed. */
module Signature {
  import opened Options
  import opened Bytes

  type sextet = v: int | 0 <= v < 64

  // ---- alphabets ----

  /** The standard alphabet of section 4 of RFC 4648, and the URL-safe one of section 5. */
  function StdChar(v: sextet): char {
    if v < 26 then ('A' as int + v) as char
    else if v < 52 then ('a' as int + v - 26) as char
    else if v < 62 then ('0' as int + v - 52) as char
    else if v == 62 then '+' else '/'
  }

  function UrlChar(v: sextet): char {
    if v == 62 then '-' else if v == 63 then '_' else StdChar(v)
  }

  function StdValue(c: char): Option<sextet> {
    if 'A' <= c <= 'Z' then Some(c as int - 'A' as int)
    else if 'a' <= c <= 'z' then Some(c as int - 'a' as int + 26)
    else if '0' <= c <= '9' then Some(c as int - '0' as int + 52)
    else if c == '+' then Some(62)
    else if c == '/' then Some(63)
    else None
  }

  /** The character class of the pattern [A-Za-z0-9_-]. */
  predicate IsUrlChar(c: char) {
    'A' <= c <= 'Z' || 'a' <= c <= 'z' || '0' <= c <= '9' || c == '_' || c == '-'
  }

  predicate AllUrl(s: string) {
    forall i :: 0 <= i < |s| ==> IsUrlChar(s[i])
  }

  /** replace("-", "+").replace("_", "/"). */
  function ToStdChar(c: char): char {
    if c == '-' then '+' else if c == '_' then '/' else c
  }

  // ---- groups of three bytes and four characters ----

  function Encode(b: Bytes): (s: seq<sextet>)
    ensures |s| == 4 * (|b| / 3) + (if |b| % 3 == 0 then 0 else |b| % 3 + 1)
  {
    if |b| == 0 then []
    else if |b| == 1 then [Sextet0(b[0]), Sextet1(b[0], 0)]
    else if |b| == 2 then [Sextet0(b[0]), Sextet1(b[0], b[1]), Sextet2(b[1], 0)]
    else [Sextet0(b[0]), Sextet1(b[0], b[1]), Sextet2(b[1], b[2]), Sextet3(b[2])] + Encode(b[3..])
  }

  function Sextet0(x: byte): sextet {
    x / 4
  }

  function Sextet1(x: byte, y: byte): sextet {
    x % 4 * 16 + y / 16
  }

  function Sextet2(y: byte, z: byte): sextet {
    y % 16 * 4 + z / 64
  }

  function Sextet3(z: byte): sextet {
    z % 64
  }

  /** base64.b64decode on the characters before the padding: unused low bits of the last one are dropped. */
  function Decode(s: seq<sextet>): (b: Bytes)
    requires |s| % 4 != 1
    ensures |b| == 3 * (|s| / 4) + (if |s| % 4 == 0 then 0 else |s| % 4 - 1)
  {
    if |s| == 0 then []
    else if |s| == 2 then [First(s[0], s[1])]
    else if |s| == 3 then [First(s[0], s[1]), Second(s[1], s[2])]
    else [First(s[0], s[1]), Second(s[1], s[2]), Third(s[2], s[3])] + Decode(s[4..])
  }

  function First(a: int, b: int): byte
    requires 0 <= a < 64 && 0 <= b < 64
  {
    a * 4 + b / 16
  }

  function Second(b: int, c: int): byte
    requires 0 <= b < 64 && 0 <= c < 64
  {
    b % 16 * 16 + c / 4
  }

  function Third(c: int, d: int): byte
    requires 0 <= c < 64 && 0 <= d < 64
  {
    c % 4 * 64 + d
  }

  lemma {:induction false} DecodeEncode(b: Bytes)
    ensures |Encode(b)| % 4 != 1 && Decode(Encode(b)) == b
  {
    hide First, Second, Third, Sextet0, Sextet1, Sextet2, Sextet3;
    if |b| == 1 {
      GroupReads(b[0], 0, 0);
    } else if |b| == 2 {
      GroupReads(b[0], b[1], 0);
    } else if |b| >= 3 {
      DecodeEncode(b[3..]);
      DecodeGroup(Sextet0(b[0]), Sextet1(b[0], b[1]), Sextet2(b[1], b[2]), Sextet3(b[2]), Encode(b[3..]));
      assert b == [b[0], b[1], b[2]] + b[3..];
      GroupReads(b[0], b[1], b[2]);
    }
  }

  lemma {:induction false} DecodeGroup(p: sextet, q: sextet, r: sextet, t: sextet, rest: seq<sextet>)
    requires |rest| % 4 != 1
    ensures Decode([p, q, r, t] + rest) == [First(p, q), Second(q, r), Third(r, t)] + Decode(rest)
  {
    assert ([p, q, r, t] + rest)[4..] == rest;
  }

  lemma GroupReads(x: byte, y: byte, z: byte)
    ensures First(Sextet0(x), Sextet1(x, y)) == x
    ensures Second(Sextet1(x, y), Sextet2(y, z)) == y
    ensures Third(Sextet2(y, z), Sextet3(z)) == z
  {
  }

  function StdValues(s: string): (v: Option<seq<sextet>>)
    ensures v.Some? ==> |v.value| == |s|
  {
    if s == "" then Some([])
    else
      var first, rest := StdValue(s[0]), StdValues(s[1..]);
      if first.None? || rest.None? then None else Some([first.value] + rest.value)
  }

  function ToStd(s: string): (r: string)
    ensures |r| == |s|
  {
    if s == "" then "" else [ToStdChar(s[0])] + ToStd(s[1..])
  }

  function UrlText(v: seq<sextet>): (s: string)
    ensures |s| == |v|
  {
    if v == [] then "" else [UrlChar(v[0])] + UrlText(v[1..])
  }

  /** urlsafe_b64encode without its padding. */
  function Url(b: Bytes): string {
    UrlText(Encode(b))
  }

  lemma {:induction false} UrlTextReads(v: seq<sextet>)
    ensures AllUrl(UrlText(v)) && StdValues(ToStd(UrlText(v))) == Some(v)
  {
    if v != [] {
      UrlTextReads(v[1..]);
      UrlCharReads(v[0]);
      var s := UrlText(v);
      assert s[0] == UrlChar(v[0]) && s[1..] == UrlText(v[1..]);
      assert forall i :: 1 <= i < |s| ==> s[i] == UrlText(v[1..])[i - 1];
      assert ToStd(s)[0] == ToStdChar(s[0]) && ToStd(s)[1..] == ToStd(s[1..]);
      assert v == [v[0]] + v[1..];
    }
  }

  lemma UrlCharReads(v: sextet)
    ensures IsUrlChar(UrlChar(v)) && StdValue(ToStdChar(UrlChar(v))) == Some(v)
  {
  }

  lemma {:induction false} TextOfValues(s: string)
    requires AllUrl(s)
    ensures StdValues(ToStd(s)).Some? && UrlText(StdValues(ToStd(s)).value) == s
  {
    if s != "" {
      TextOfValues(s[1..]);
      CharOfValue(s[0]);
      assert ToStd(s)[1..] == ToStd(s[1..]);
      var v := StdValues(ToStd(s)).value;
      assert v[1..] == StdValues(ToStd(s[1..])).value;
      assert s == [s[0]] + s[1..];
    }
  }

  lemma CharOfValue(c: char)
    requires IsUrlChar(c)
    ensures StdValue(ToStdChar(c)).Some? && UrlChar(StdValue(ToStdChar(c)).value) == c
  {
  }

  // ---- the check ----

  function StripPadding(s: string): string {
    if s != "" && s[|s| - 1] == '=' then StripPadding(s[..|s| - 1]) else s
  }

  /** The signature step of verify_signed_record, up to the verification itself; None is MalformedRecord. */
  method DecodeSignature(sig: string) returns (r: Option<Bytes>)
    ensures r.Some? ==> |r.value| == 64 && (sig == Url(r.value) || sig == Url(r.value) + "==")
    ensures r.None? ==> forall b: Bytes :: |b| == 64 ==> sig != Url(b) && sig != Url(b) + "=="
  {
    hide Encode, Decode, UrlText, StdValues, ToStd, StripPadding, AllUrl;
    forall b: Bytes | |b| == 64
      ensures |Url(b)| == 86 && AllUrl(Url(b)) && StripPadding(Url(b)) == Url(b)
    {
      UrlForm(b);
    }
    if !(|sig| == 86 && AllUrl(sig)) && !(|sig| == 88 && AllUrl(sig[..86]) && sig[86..] == "==") {
      forall b: Bytes | |b| == 64
        ensures sig != Url(b) && sig != Url(b) + "=="
      {
        assert (Url(b) + "==")[..86] == Url(b) && (Url(b) + "==")[86..] == "==";
      }
      return None;
    }
    PaddingStrips(sig);
    var stripped := StripPadding(sig);
    if |stripped| != 86 {
      return None;
    }
    var values := StdValues(ToStd(stripped));
    TextOfValues(stripped);
    if values.None? {
      return None;
    }
    var signature := Decode(values.value);
    if |signature| != 64 {
      return None;
    }
    var reencoded := StripPadding(Url(signature) + "==");
    PaddingStrips(Url(signature) + "==");
    if reencoded != stripped {
      forall b: Bytes | |b| == 64
        ensures sig != Url(b) && sig != Url(b) + "=="
      {
        if sig == Url(b) || sig == Url(b) + "==" {
          assert sig[..86] == Url(b);
          NotCanonical(stripped, b);
        }
      }
      return None;
    }
    return Some(signature);
  }

  lemma UrlForm(b: Bytes)
    requires |b| == 64
    ensures |Url(b)| == 86 && AllUrl(Url(b)) && StripPadding(Url(b)) == Url(b)
  {
    UrlTextReads(Encode(b));
  }

  /** Where the pattern matches, stripping gives the 86 characters. */
  lemma PaddingStrips(sig: string)
    requires (|sig| == 86 && AllUrl(sig)) || (|sig| == 88 && AllUrl(sig[..86]) && sig[86..] == "==")
    ensures StripPadding(sig) == sig[..86] && AllUrl(sig[..86])
  {
    if |sig| == 88 {
      assert sig[86..][0] == sig[86] && sig[86..][1] == sig[87];
      assert sig[..87][..86] == sig[..86];
    } else {
      assert sig[..86] == sig;
    }
  }

  lemma NotCanonical(stripped: string, b: Bytes)
    requires |b| == 64 && stripped == Url(b)
    ensures StdValues(ToStd(stripped)).Some? && Url(Decode(StdValues(ToStd(stripped)).value)) == stripped
  {
    UrlTextReads(Encode(b));
    DecodeEncode(b);
  }

  /** One value has exactly two accepted texts, and no text stands for two values. */
  lemma SignatureTexts(b: Bytes, c: Bytes)
    requires |b| == 64 && |c| == 64
    ensures Url(b) == Url(c) || Url(b) + "==" == Url(c) + "==" ==> b == c
    ensures Url(b) != Url(c) + "=="
  {
    hide Encode, Decode, UrlText, StdValues, ToStd, AllUrl, StripPadding;
    UrlForm(b);
    UrlForm(c);
    if Url(b) == Url(c) {
      SameText(b, c);
    }
    assert (Url(b) + "==")[..86] == Url(b) && (Url(c) + "==")[..86] == Url(c);
  }

  lemma SameText(b: Bytes, c: Bytes)
    requires Url(b) == Url(c)
    ensures b == c
  {
    hide Encode, Decode;
    UrlTextReads(Encode(b));
    UrlTextReads(Encode(c));
    DecodeEncode(b);
    DecodeEncode(c);
  }

  // ---- the signed text ----

  /** The text a record's signature covers: room, nonce and text joined by bars; a nonce is decimal digits. */
  function SignedText(room: string, nonce: string, text: string): string {
    room + "|" + nonce + "|" + text
  }

  predicate NoBar(s: string) {
    forall i :: 0 <= i < |s| ==> s[i] != '|'
  }

  lemma {:induction false} BarSplits(a: string, x: string, b: string, y: string)
    requires NoBar(a) && NoBar(b) && a + "|" + x == b + "|" + y
    ensures a == b && x == y
    decreases |a|
  {
    var s, t := a + "|" + x, b + "|" + y;
    assert (a + "|")[0] == s[0] == t[0] == (b + "|")[0];
    if a == "" && b == "" {
      assert s[1..] == x && t[1..] == y;
    } else if a != "" && b != "" {
      assert s[1..] == a[1..] + "|" + x && t[1..] == b[1..] + "|" + y;
      BarSplits(a[1..], x, b[1..], y);
    }
  }

  /** Where room names hold no bar, one signed text is one record. */
  lemma SignedTextUnambiguous(room: string, nonce: string, text: string, room': string, nonce': string, text': string)
    requires NoBar(nonce) && NoBar(nonce')
    requires SignedText(room, nonce, text) == SignedText(room', nonce', text')
    ensures NoBar(room) && NoBar(room') ==> room == room' && nonce == nonce' && text == text'
    ensures room == room' ==> nonce == nonce' && text == text'
  {
    assert SignedText(room, nonce, text) == room + "|" + (nonce + "|" + text);
    assert SignedText(room', nonce', text') == room' + "|" + (nonce' + "|" + text');
    if room == room' {
      var n := |room| + 1;
      assert SignedText(room, nonce, text)[n..] == nonce + "|" + text;
      assert SignedText(room', nonce', text')[n..] == nonce' + "|" + text';
      BarSplits(nonce, text, nonce', text');
    } else if NoBar(room) && NoBar(room') {
      BarSplits(room, nonce + "|" + text, room', nonce' + "|" + text');
    }
  }

  /** A room name that holds a bar shares a signed text with another room. */
  lemma BarsMakeRoomsCollide(room: string, tail: string, nonce: string, text: string)
    ensures SignedText(room + "|" + tail, nonce, text) == SignedText(room, tail, nonce + "|" + text)
  {
    assert room + "|" + tail + "|" + nonce + "|" + text == room + "|" + tail + "|" + (nonce + "|" + text);
  }
}
