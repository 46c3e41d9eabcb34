/** Hexadecimal text and bytes. */
module Hex {
  import opened Options
  import opened Bytes
  import opened Text
  import opened Printer
  import opened Parser
  import opened Frames

  /** String.prototype.toLowerCase on ASCII letters; no other character lower-cases into hex text. */
  function LowerUnit(u: unit16): unit16 {
    if 65 <= u <= 90 then u + 32 else u
  }

  function Lower(t: Text): (r: Text)
    ensures |r| == |t|
    ensures forall i :: 0 <= i < |t| ==> r[i] == LowerUnit(t[i])
  {
    seq(|t|, i requires 0 <= i < |t| => LowerUnit(t[i]))
  }

  lemma LowerTwice(t: Text)
    ensures Lower(Lower(t)) == Lower(t)
  {
  }

  function HexBody(b: Bytes): (t: Text)
    ensures |t| == 2 * |b|
  {
    if b == [] then [] else [HexDigit(b[0] / 16), HexDigit(b[0] % 16)] + HexBody(b[1..])
  }

  function HexText(b: Bytes): Text {
    [48, 120] + HexBody(b)
  }

  predicate AllHex(t: Text) {
    forall i :: 0 <= i < |t| ==> IsHexDigit(t[i])
  }

  function DigitValue(u: unit16): (n: int)
    requires IsHexDigit(u)
    ensures 0 <= n < 16
  {
    HexValue(u).value
  }

  function BodyBytes(t: Text): (b: Bytes)
    requires |t| % 2 == 0 && AllHex(t)
    ensures |b| == |t| / 2
  {
    if t == [] then [] else [16 * DigitValue(t[0]) + DigitValue(t[1])] + BodyBytes(t[2..])
  }

  lemma {:induction false} HexBodyReads(b: Bytes)
    ensures AllHex(HexBody(b)) && BodyBytes(HexBody(b)) == b
    ensures Lower(HexBody(b)) == HexBody(b)
  {
    if b != [] {
      HexBodyReads(b[1..]);
      assert HexBody(b)[2..] == HexBody(b[1..]);
      assert forall i :: 2 <= i < |HexBody(b)| ==> HexBody(b)[i] == HexBody(b[1..])[i - 2];
    }
  }

  lemma DigitReads(u: unit16)
    requires IsHexDigit(u)
    ensures HexDigit(DigitValue(u)) == LowerUnit(u)
  {
  }

  lemma {:induction false} BytesReads(t: Text)
    requires |t| % 2 == 0 && AllHex(t)
    ensures HexBody(BodyBytes(t)) == Lower(t)
  {
    hide DigitValue, HexDigit, LowerUnit, Lower, HexBody, BodyBytes;
    if t != [] {
      BytesReads(t[2..]);
      FirstPairReads(t);
      LowerPair(t);
    }
  }

  lemma FirstPairReads(t: Text)
    requires t != [] && |t| % 2 == 0 && AllHex(t)
    ensures HexBody(BodyBytes(t)) == [LowerUnit(t[0]), LowerUnit(t[1])] + HexBody(BodyBytes(t[2..]))
  {
    hide DigitValue, HexDigit, LowerUnit, HexBody, BodyBytes, AllHex;
    BodyBytesOnce(t);
    DigitReads(t[0]);
    DigitReads(t[1]);
    HexBodyOnce(16 * DigitValue(t[0]) + DigitValue(t[1]), BodyBytes(t[2..]));
  }

  lemma BodyBytesOnce(t: Text)
    requires t != [] && |t| % 2 == 0 && AllHex(t)
    ensures AllHex(t[2..]) && IsHexDigit(t[0]) && IsHexDigit(t[1])
    ensures BodyBytes(t) == [16 * DigitValue(t[0]) + DigitValue(t[1])] + BodyBytes(t[2..])
  {
    hide DigitValue;
  }

  lemma HexBodyOnce(b: byte, rest: Bytes)
    ensures HexBody([b] + rest) == [HexDigit(b / 16), HexDigit(b % 16)] + HexBody(rest)
  {
    assert ([b] + rest)[1..] == rest;
  }

  lemma LowerPair(t: Text)
    requires |t| >= 2
    ensures Lower(t) == [LowerUnit(t[0]), LowerUnit(t[1])] + Lower(t[2..])
  {
    hide LowerUnit;
  }

  lemma DigestText(d: Digest)
    ensures ValidHex32(HexText(d.bytes)) && Lower(HexText(d.bytes)) == HexText(d.bytes)
  {
    HexBodyReads(d.bytes);
    var t := HexText(d.bytes);
    assert t[2..] == HexBody(d.bytes);
    forall i | 2 <= i < |t| ensures IsHexDigit(t[i]) && LowerUnit(t[i]) == t[i] {
      assert t[i] == HexBody(d.bytes)[i - 2] == Lower(HexBody(d.bytes))[i - 2];
    }
  }

  lemma HexTextInjective(a: Bytes, b: Bytes)
    requires HexText(a) == HexText(b)
    ensures a == b
  {
    assert HexText(a)[2..] == HexBody(a) && HexText(b)[2..] == HexBody(b);
    HexBodyReads(a);
    HexBodyReads(b);
  }

  /** bytesToHex. */
  method BytesToHex(bytes: Bytes) returns (hex: Text)
    ensures hex == HexText(bytes)
  {
    var body: Text := [];
    for i := 0 to |bytes|
      invariant body + HexBody(bytes[i..]) == HexBody(bytes)
    {
      body := body + [HexDigit(bytes[i] / 16), HexDigit(bytes[i] % 16)];
      assert bytes[i..][1..] == bytes[i + 1..];
    }
    return [48, 120] + body;
  }

  /** The digits behind an optional 0x. */
  function Clean(hex: Text): Text {
    if |hex| >= 2 && hex[0] == 48 && hex[1] == 120 then hex[2..] else hex
  }

  /** What parseInt skips before a number: the white space and line ends of JavaScript. */
  predicate IsBlank(u: unit16) {
    9 <= u <= 13 || u == 32 || u == 0xA0 || u == 0x1680 || 0x2000 <= u <= 0x200A || u == 0x2028 || u == 0x2029
    || u == 0x202F || u == 0x205F || u == 0x3000 || u == 0xFEFF
  }

  /** parseInt of two characters in base 16, stored in a byte: NaN is stored as 0 and a negative digit wraps around. */
  function PairByte(u: unit16, v: unit16): byte {
    var first, second := HexValue(u), HexValue(v);
    if first.Some? then if second.Some? then 16 * first.value + second.value else first.value
    else if second.Some? && (IsBlank(u) || u == 43) then second.value
    else if second.Some? && u == 45 then (256 - second.value) % 256
    else 0
  }

  function PairBytes(t: Text): (b: Bytes)
    requires |t| % 2 == 0
    ensures |b| == |t| / 2
  {
    if t == [] then [] else [PairByte(t[0], t[1])] + PairBytes(t[2..])
  }

  /** hexToBytes: an odd number of characters is the exception; otherwise the buffer is filled pair by pair. */
  method HexToBytes(hex: Text) returns (r: Option<Bytes>)
    ensures r == if |Clean(hex)| % 2 != 0 then None else Some(PairBytes(Clean(hex)))
  {
    hide PairBytes, Clean, PairByte;
    var clean := Clean(hex);
    if |clean| % 2 != 0 {
      return None;
    }
    var n := |clean| / 2;
    var bytes := new byte[n](_ => 0);
    for k := 0 to n
      invariant PairBytes(clean) == bytes[..k] + RestBytes(clean, k)
    {
      NextByte(clean, k);
      ghost var done, rest := bytes[..k], RestBytes(clean, k + 1);
      bytes[k] := PairByte(clean[2 * k], clean[2 * k + 1]);
      assert bytes[..k + 1] == done + [bytes[k]];
      assert done + ([bytes[k]] + rest) == (done + [bytes[k]]) + rest;
    }
    NoMoreBytes(clean, n);
    assert bytes[..n] + [] == bytes[..];
    return Some(bytes[..]);
  }

  /** On hex digits the result is the byte string they spell. */
  lemma {:induction false} DigitsRead(t: Text)
    requires |t| % 2 == 0 && AllHex(t)
    ensures PairBytes(t) == BodyBytes(t)
  {
    if t != [] {
      DigitsRead(t[2..]);
    }
  }

  /** The bytes of the pairs from k on. */
  ghost function RestBytes(clean: Text, k: nat): Bytes
    requires 2 * k <= |clean| && |clean| % 2 == 0
  {
    PairBytes(clean[2 * k..])
  }

  lemma NextByte(clean: Text, k: nat)
    requires 2 * k < |clean| && |clean| % 2 == 0
    ensures RestBytes(clean, k) == [PairByte(clean[2 * k], clean[2 * k + 1])] + RestBytes(clean, k + 1)
  {
    hide PairByte;
    assert clean[2 * k..][2..] == clean[2 * (k + 1)..];
  }

  lemma NoMoreBytes(clean: Text, n: nat)
    requires |clean| == 2 * n
    ensures RestBytes(clean, n) == []
  {
  }

  /** bytesToHex inverts hexToBytes on hex digits, up to letter case, and hexToBytes inverts bytesToHex. */
  lemma {:induction false} HexRoundTrip(b: Bytes, t: Text)
    ensures PairBytes(Clean(HexText(b))) == b
    ensures |t| % 2 == 0 && AllHex(t) ==> HexText(PairBytes(t)) == [48, 120] + Lower(t)
  {
    HexBodyReads(b);
    assert HexText(b)[2..] == HexBody(b);
    DigitsRead(HexBody(b));
    if |t| % 2 == 0 && AllHex(t) {
      DigitsRead(t);
      BytesReads(t);
    }
  }

  /** computeSha256 of 32-byte hex text. */
  function Sha256Hex(h: HashFn, t: Text): Text
    requires ValidHex32(t)
  {
    HexText(h(BodyBytes(Lower32(t)[2..])).bytes)
  }

  /** normalizeHex32: lower case, still 32 bytes of hex. */
  function Lower32(t: Text): (r: Text)
    requires ValidHex32(t)
    ensures ValidHex32(r) && AllHex(r[2..])
  {
    Lower(t)
  }
}
