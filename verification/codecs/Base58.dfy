/** decodeBase58: a bignum multiplied and carried in place, byte by byte. */
module Base58 {
  import opened Options
  import opened Bytes
  import opened LittleEndian

  const ALPHABET := "123456789" + "ABCDEFGHJKLMNPQRSTUVWXYZ" + "abcdefghijkmnopqrstuvwxyz"

  type digit = d: int | 0 <= d < 58

  /** B58_ALPHABET.indexOf. */
  function IndexOf(c: char, from: nat): Option<digit>
    requires from <= 58
    decreases 58 - from
  {
    if from == 58 then None else if ALPHABET[from] == c then Some(from) else IndexOf(c, from + 1)
  }

  predicate ValidText(s: string) {
    forall i :: 0 <= i < |s| ==> IndexOf(s[i], 0).Some?
  }

  function Digits(s: string): (d: seq<digit>)
    requires ValidText(s)
    ensures |d| == |s|
    ensures forall i :: 0 <= i < |s| ==> d[i] == IndexOf(s[i], 0).value
  {
    seq(|s|, i requires 0 <= i < |s| => IndexOf(s[i], 0).value)
  }

  /** The number a digit string denotes, most significant digit first. */
  function Value58(d: seq<digit>): nat {
    if d == [] then 0 else 58 * Value58(d[..|d| - 1]) + d[|d| - 1]
  }

  function Pow256(n: nat): (p: nat)
    ensures p >= 1
  {
    if n == 0 then 1 else 256 * Pow256(n - 1)
  }

  /** The shortest list of bytes for a number, least significant first; zero takes one byte. */
  function BytesLE(n: nat): (b: Bytes)
    ensures |b| > 0
  {
    if n < 256 then [n] else [n % 256] + BytesLE(n / 256)
  }

  function Reverse(b: seq<int>): (r: seq<int>)
    ensures |r| == |b|
    ensures forall i :: 0 <= i < |b| ==> r[i] == b[|b| - 1 - i]
  {
    if b == [] then [] else Reverse(b[1..]) + [b[0]]
  }

  /** How many leading elements are zero; in a digit string, how many leading characters are '1'. */
  function LeadingZeros(d: seq<int>): (n: nat)
    ensures n <= |d|
    ensures forall i :: 0 <= i < n ==> d[i] == 0
    ensures n < |d| ==> d[n] != 0
  {
    if d == [] || d[0] != 0 then 0 else 1 + LeadingZeros(d[1..])
  }

  function Zeros(n: nat): (z: seq<digit>)
    ensures |z| == n
    ensures forall i :: 0 <= i < n ==> z[i] == 0
  {
    if n == 0 then [] else [0] + Zeros(n - 1)
  }

  /** What decodeBase58 returns: a zero byte for each leading '1', then the number, with zero as one byte. */
  function Decoded(d: seq<digit>): seq<int> {
    Zeros(LeadingZeros(d)) + Reverse(BytesLE(Value58(d)))
  }

  // ---- limb arithmetic ----

  lemma {:induction false} ScaleValue(b: seq<int>, c: seq<int>)
    requires |b| == |c| && forall i :: 0 <= i < |b| ==> c[i] == 58 * b[i]
    ensures ValueLE(c) == 58 * ValueLE(b)
  {
    if b != [] {
      ScaleValue(b[1..], c[1..]);
    }
  }

  lemma {:induction false} SetLimb(b: seq<int>, j: nat, x: int)
    requires j < |b|
    ensures ValueLE(b[j := x]) == ValueLE(b) + (x - b[j]) * Pow256(j)
  {
    if j == 0 {
      assert b[0 := x][1..] == b[1..];
    } else {
      SetLimb(b[1..], j - 1, x);
      assert b[j := x][1..] == b[1..][j - 1 := x];
      var p := Pow256(j - 1);
      calc {
        ValueLE(b[j := x]);
        b[0] + 256 * (ValueLE(b[1..]) + (x - b[j]) * p);
        { Distribute(ValueLE(b[1..]), x - b[j], p); }
        ValueLE(b) + (x - b[j]) * (256 * p);
      }
    }
  }

  lemma Distribute(v: int, y: int, p: int)
    ensures 256 * (v + y * p) == 256 * v + y * (256 * p)
  {
  }

  lemma {:induction false} AppendLimb(b: seq<int>, x: int)
    ensures ValueLE(b + [x]) == ValueLE(b) + x * Pow256(|b|)
  {
    if b == [] {
      assert b + [x] == [x];
    } else {
      assert (b + [x])[1..] == b[1..] + [x];
      AppendLimb(b[1..], x);
      Distribute(ValueLE(b[1..]), x, Pow256(|b| - 1));
    }
  }

  /** Byte limbs with a nonzero top limb, or a single limb: the shortest form of their value. */
  predicate Shortest(b: seq<int>) {
    && |b| > 0
    && (forall i :: 0 <= i < |b| ==> 0 <= b[i] < 256)
    && (|b| > 1 ==> b[|b| - 1] != 0)
  }

  lemma {:induction false} ShortestIsBytesLE(b: seq<int>)
    requires Shortest(b)
    ensures ValueLE(b) >= 0 && b == BytesLE(ValueLE(b))
    ensures |b| > 1 ==> ValueLE(b) >= 256
  {
    if |b| == 1 {
      assert b[1..] == [];
    } else {
      ShortestIsBytesLE(b[1..]);
      var v := ValueLE(b[1..]);
      assert v >= 1 by {
        if |b| == 2 {
          assert b[1..] == [b[1]] && ValueLE([b[1]]) == b[1] + 256 * ValueLE([]);
        }
      }
      assert ValueLE(b) == b[0] + 256 * v;
      assert ValueLE(b) % 256 == b[0] && ValueLE(b) / 256 == v;
      assert b == [b[0]] + b[1..];
    }
  }

  // ---- the loops ----

  /** One character: multiply every limb by 58, add the digit, carry through, and grow while there is carry left. */
  method MultiplyAdd(limbs: seq<int>, val: digit) returns (bytes: seq<int>)
    requires Shortest(limbs)
    ensures Shortest(bytes)
    ensures ValueLE(bytes) == 58 * ValueLE(limbs) + val
  {
    hide ValueLE, Pow256;
    bytes := limbs;
    var n := |bytes|;
    for j := 0 to n
      invariant |bytes| == n
      invariant forall i :: 0 <= i < n ==> bytes[i] == if i < j then 58 * limbs[i] else limbs[i]
    {
      bytes := bytes[j := bytes[j] * 58];
    }
    ScaleValue(limbs, bytes);
    SetLimb(bytes, 0, bytes[0] + val);
    bytes := bytes[0 := bytes[0] + val];
    ghost var scaled := bytes;
    FirstPower();
    var carry := 0;
    for j := 0 to n
      invariant |bytes| == n && 0 <= carry <= 58
      invariant forall i :: 0 <= i < j ==> 0 <= bytes[i] < 256
      invariant forall i :: j <= i < n ==> bytes[i] == scaled[i]
      invariant ValueLE(bytes) + carry * Pow256(j) == ValueLE(scaled)
      invariant j == n && n > 1 ==> carry > 0 || bytes[n - 1] > 0
    {
      CarryStep(bytes, j, carry);
      bytes := bytes[j := bytes[j] + carry];
      assert 0 <= bytes[j] < 0x8000_0000; // so the signed shift and the mask act on the value itself
      carry := bytes[j] / 256;
      bytes := bytes[j := bytes[j] % 256];
    }
    while carry > 0
      invariant 0 <= carry <= 58 && |bytes| >= 1
      invariant forall i :: 0 <= i < |bytes| ==> 0 <= bytes[i] < 256
      invariant ValueLE(bytes) + carry * Pow256(|bytes|) == ValueLE(scaled)
      invariant |bytes| > 1 ==> carry > 0 || bytes[|bytes| - 1] > 0
      decreases carry
    {
      CarryOut(bytes, carry);
      bytes := bytes + [carry % 256];
      carry := carry / 256;
    }
  }

  lemma FirstPower()
    ensures Pow256(0) == 1
  {
  }

  lemma CarryOut(b: seq<int>, carry: int)
    requires 0 <= carry < 256
    ensures ValueLE(b + [carry % 256]) + carry / 256 * Pow256(|b| + 1) == ValueLE(b) + carry * Pow256(|b|)
  {
    hide ValueLE, Pow256;
    AppendLimb(b, carry);
    var p, next := Pow256(|b|), Pow256(|b| + 1);
    assert carry % 256 == carry && carry / 256 == 0;
    assert carry / 256 * next == 0;
    assert ValueLE(b + [carry]) == ValueLE(b) + carry * p;
  }

  lemma CarryStep(b: seq<int>, j: nat, carry: int)
    requires j < |b|
    ensures var sum := b[j] + carry;
      ValueLE(b[j := sum][j := sum % 256]) + sum / 256 * Pow256(j + 1) == ValueLE(b) + carry * Pow256(j)
  {
    var high, low := (b[j] + carry) / 256, (b[j] + carry) % 256;
    assert b[j := b[j] + carry][j := low] == b[j := low];
    SetLimb(b, j, low);
    var p := Pow256(j);
    assert (low - b[j]) * p + high * (256 * p) == (low - b[j] + 256 * high) * p by {
      CollectTerms(low - b[j], high, p);
    }
  }

  lemma CollectTerms(x: int, y: int, p: int)
    ensures x * p + y * (256 * p) == (x + 256 * y) * p
  {
  }

  /** decodeBase58: None is the exception on a character outside the alphabet. */
  method DecodeBase58(str: string) returns (r: Option<seq<int>>)
    ensures r.Some? <==> ValidText(str)
    ensures r.Some? ==> r.value == Decoded(Digits(str))
  {
    hide ValueLE, IndexOf, Value58, BytesLE, LeadingZeros, Zeros, Reverse;
    DigitsOfNothing();
    NoZeros();
    var bytes: seq<int> := [0];
    for i := 0 to |str|
      invariant ValidText(str[..i])
      invariant Shortest(bytes)
      invariant ValueLE(bytes) == Value58(Digits(str[..i]))
    {
      var val := IndexOf(str[i], 0);
      if val.None? {
        return None;
      }
      NextDigit(str, i);
      bytes := MultiplyAdd(bytes, val.value);
    }
    assert str[..|str|] == str;
    ShortestIsBytesLE(bytes);
    ghost var number := bytes;
    var d := Digits(str);
    var k := 0;
    while k < |str| && str[k] == '1'
      invariant k <= LeadingZeros(d) && |bytes| == |number| + k
      invariant bytes == number + Zeros(k)
    {
      OneIsZero(str[k]);
      assert d[k] == 0;
      ZerosGrow(k);
      assert bytes + [0] == number + (Zeros(k) + [0]);
      bytes := bytes + [0];
      k := k + 1;
    }
    assert k == LeadingZeros(d) by {
      if k < |str| {
        OneIsZero(str[k]);
        assert d[k] != 0;
      }
    }
    ReverseZeros(number, k);
    r := Some(Reverse(bytes));
  }

  lemma DigitsOfNothing()
    ensures Value58(Digits("")) == ValueLE([0]) == 0
  {
  }

  lemma NextDigit(str: string, i: nat)
    requires i < |str| && ValidText(str[..i]) && IndexOf(str[i], 0).Some?
    ensures ValidText(str[..i + 1])
    ensures Value58(Digits(str[..i + 1])) == 58 * Value58(Digits(str[..i])) + IndexOf(str[i], 0).value
  {
    hide IndexOf;
    assert str[..i + 1] == str[..i] + [str[i]];
    assert Digits(str[..i + 1])[..i] == Digits(str[..i]);
  }

  lemma OneIsZero(c: char)
    requires IndexOf(c, 0).Some?
    ensures c == '1' <==> IndexOf(c, 0) == Some(0)
  {
    assert ALPHABET[0] == '1';
    IndexOfIsIndex(c, 0);
  }

  lemma {:induction false} IndexOfIsIndex(c: char, from: nat)
    requires from <= 58
    ensures IndexOf(c, from).Some? ==> IndexOf(c, from).value >= from && ALPHABET[IndexOf(c, from).value] == c
    decreases 58 - from
  {
    if from < 58 && ALPHABET[from] != c {
      IndexOfIsIndex(c, from + 1);
    }
  }

  lemma NoZeros()
    ensures Zeros(0) == []
  {
  }

  lemma {:induction false} ZerosGrow(n: nat)
    ensures Zeros(n) + [0] == Zeros(n + 1)
  {
  }

  lemma ReverseZeros(b: seq<int>, k: nat)
    ensures Reverse(b + Zeros(k)) == Zeros(k) + Reverse(b)
  {
  }

  lemma ReverseTwice(b: seq<int>)
    ensures Reverse(Reverse(b)) == b
  {
  }

  // ---- what the result means ----

  lemma {:induction false} BytesLEIsShortest(n: nat)
    ensures Shortest(BytesLE(n)) && ValueLE(BytesLE(n)) == n
    ensures n > 0 ==> BytesLE(n)[|BytesLE(n)| - 1] != 0
  {
    if n >= 256 {
      BytesLEIsShortest(n / 256);
      assert BytesLE(n)[1..] == BytesLE(n / 256);
    } else {
      assert BytesLE(n)[1..] == [];
    }
  }

  lemma {:induction false} ValuePositive(d: seq<digit>)
    ensures Value58(d) > 0 <==> LeadingZeros(d) < |d|
  {
    if d != [] {
      var init := d[..|d| - 1];
      ValuePositive(init);
      if LeadingZeros(d) < |d| - 1 {
        assert init[LeadingZeros(d)] != 0;
        assert LeadingZeros(init) < |init|;
      }
    }
  }

  /**
   * When some character is not '1', the leading zero bytes are exactly the leading '1's and the big-endian value is
   * the text's. When all characters are '1', there is exactly one zero byte too many.
   */
  lemma {:induction false} DecodedMeaning(d: seq<digit>)
    ensures ValueLE(Reverse(Decoded(d))) == Value58(d)
    ensures LeadingZeros(d) < |d| ==>
      |Decoded(d)| > LeadingZeros(d) && Decoded(d)[LeadingZeros(d)] != 0
    ensures LeadingZeros(d) == |d| ==> Decoded(d) == Zeros(|d| + 1)
    ensures forall i :: 0 <= i < LeadingZeros(d) ==> Decoded(d)[i] == 0
  {
    hide ValueLE, Value58, BytesLE, LeadingZeros, Zeros, Reverse;
    var n := Value58(d);
    var k := LeadingZeros(d);
    ValuePositive(d);
    BytesLEIsShortest(n);
    var b: seq<int> := BytesLE(n);
    ReverseZeros(b, k);
    ReverseTwice(b + Zeros(k));
    TrailingZeros(b, k);
    if k == |d| {
      OnlyZero(k);
    }
  }

  lemma OnlyZero(k: nat)
    ensures Zeros(k) + Reverse(BytesLE(0)) == Zeros(k + 1)
  {
    ZerosGrow(k);
    assert Reverse(BytesLE(0)) == [0];
  }

  lemma {:induction false} TrailingZeros(b: seq<int>, k: nat)
    ensures ValueLE(b + Zeros(k)) == ValueLE(b)
  {
    if k == 0 {
      assert b + Zeros(0) == b;
    } else {
      ZerosGrow(k - 1);
      assert b + Zeros(k) == (b + Zeros(k - 1)) + [0];
      AppendLimb(b + Zeros(k - 1), 0);
      TrailingZeros(b, k - 1);
    }
  }

  /** Two digit strings of one value with no leading zero digit are one. */
  lemma {:induction false} DigitsUnique(d: seq<digit>, e: seq<digit>)
    requires Value58(d) == Value58(e)
    requires d != [] ==> d[0] != 0
    requires e != [] ==> e[0] != 0
    ensures d == e
    decreases |d|
  {
    ValuePositive(d);
    ValuePositive(e);
    if d != [] && e != [] {
      var d', e' := d[..|d| - 1], e[..|e| - 1];
      var x, y := d[|d| - 1], e[|e| - 1];
      LastDigit(Value58(d'), x, Value58(e'), y);
      DigitsUnique(d', e');
      assert d == d' + [x] && e == e' + [y];
    }
  }

  lemma LastDigit(a: int, x: digit, b: int, y: digit)
    requires 58 * a + x == 58 * b + y
    ensures a == b && x == y
  {
  }

  lemma {:induction false} DropLeading(d: seq<digit>, k: nat)
    requires k <= |d| && forall i :: 0 <= i < k ==> d[i] == 0
    ensures Value58(d[k..]) == Value58(d)
    decreases |d|
  {
    if k < |d| {
      var init := d[..|d| - 1];
      DropLeading(init, k);
      assert d[k..][..|d| - k - 1] == init[k..];
    } else {
      assert d[k..] == [];
      ValuePositive(d);
    }
  }

  /** The decoder is injective on its alphabet: no two texts, all-'1' texts included, decode to the same bytes. */
  lemma DecodeInjective(d: seq<digit>, e: seq<digit>)
    requires Decoded(d) == Decoded(e)
    ensures d == e
  {
    DecodedMeaning(d);
    DecodedMeaning(e);
    hide ValueLE, Value58, BytesLE, LeadingZeros, Zeros, Reverse, Decoded;
    var j, k := LeadingZeros(d), LeadingZeros(e);
    if j == |d| && k == |e| {
      assert |Zeros(|d| + 1)| == |Zeros(|e| + 1)|;
    } else if j < |d| && k < |e| {
      DropLeading(d, j);
      DropLeading(e, k);
      DigitsUnique(d[j..], e[k..]);
    }
    assert d == d[..j] + d[j..] && e == e[..k] + e[k..];
    assert d[..j] == e[..k];
  }

  // ---- the inverse ----

  /** The digits of a number without a leading zero, most significant first. */
  function DigitsOf(n: nat): (d: seq<digit>)
    ensures n > 0 ==> |d| > 0 && d[0] != 0
  {
    if n == 0 then [] else DigitsOf(n / 58) + [n % 58]
  }

  lemma {:induction false} DigitsOfValue(n: nat)
    ensures Value58(DigitsOf(n)) == n
  {
    if n > 0 {
      DigitsOfValue(n / 58);
      assert DigitsOf(n)[..|DigitsOf(n)| - 1] == DigitsOf(n / 58);
    }
  }

  /** Base58 encoding of a byte string: a '1' for each leading zero byte, then the number. */
  function Encoded(b: Bytes): seq<digit> {
    Zeros(LeadingZeros(b)) + DigitsOf(Number(b))
  }

  function Number(b: Bytes): (n: nat)
    ensures n == ValueLE(Reverse(b))
  {
    NumberIsNat(Reverse(b));
    ValueLE(Reverse(b))
  }

  lemma {:induction false} NumberIsNat(b: seq<int>)
    requires forall i :: 0 <= i < |b| ==> 0 <= b[i]
    ensures ValueLE(b) >= 0
  {
    if b != [] {
      NumberIsNat(b[1..]);
    }
  }

  /** Every byte string with a nonzero byte is decoded from exactly one text: its encoding. */
  lemma {:induction false} EncodeReads(b: Bytes)
    requires LeadingZeros(b) < |b|
    ensures Decoded(Encoded(b)) == b
  {
    hide ValueLE, Value58, BytesLE, LeadingZeros, Zeros, DigitsOf, Reverse;
    var k := LeadingZeros(b);
    TopIsShortest(b);
    var rest, top := TopBytes(b), Reverse(TopBytes(b));
    ShortestIsBytesLE(top);
    NonzeroNumber(top);
    DigitsAfterZeros(k, ValueLE(top));
    ReverseTwice(rest);
  }

  /** The bytes after the leading zeros. */
  function TopBytes(b: Bytes): Bytes {
    b[LeadingZeros(b)..]
  }

  lemma TopIsShortest(b: Bytes)
    requires LeadingZeros(b) < |b|
    ensures var top := Reverse(TopBytes(b));
      Shortest(top) && top[|top| - 1] != 0 && Number(b) == ValueLE(top)
    ensures b == Zeros(LeadingZeros(b)) + TopBytes(b)
  {
    hide ValueLE, LeadingZeros, Zeros, Reverse;
    var k := LeadingZeros(b);
    var top := Reverse(TopBytes(b));
    assert top[|top| - 1] == TopBytes(b)[0] == b[k] != 0;
    assert b == Zeros(k) + TopBytes(b);
    ReverseTwice(TopBytes(b));
    ReverseZeros(top, k);
    ReverseTwice(top + Zeros(k));
    TrailingZeros(top, k);
  }

  lemma DigitsAfterZeros(k: nat, v: nat)
    requires v > 0
    ensures Value58(Zeros(k) + DigitsOf(v)) == v
    ensures LeadingZeros(Zeros(k) + DigitsOf(v)) == k
  {
    hide Value58, Zeros, DigitsOf, LeadingZeros;
    var e := Zeros(k) + DigitsOf(v);
    assert e[k..] == DigitsOf(v);
    assert e[k] == DigitsOf(v)[0] != 0;
    DropLeading(e, k);
    DigitsOfValue(v);
  }

  lemma NonzeroNumber(b: seq<int>)
    requires Shortest(b) && b[|b| - 1] != 0
    ensures ValueLE(b) > 0
  {
    ShortestIsBytesLE(b);
  }

  /** Every result of the decoder is either such a byte string or one or more zero bytes. */
  lemma DecodedImage(b: Bytes)
    ensures (exists d: seq<digit> :: Decoded(d) == b) <==> b != []
  {
    if b != [] {
      if LeadingZeros(b) < |b| {
        EncodeReads(b);
      } else {
        var d: seq<digit> := Zeros(|b| - 1);
        assert LeadingZeros(d) == |d|;
        DecodedMeaning(d);
        assert Zeros(|b|) == b;
        assert Decoded(d) == b;
      }
    }
  }

  // ---- did:key ----

  const PREFIX := "did:key:z"

  /** extractEd25519PubKey; None is the exception. The prefix 0xed 0x01 is the multicodec of an Ed25519 key. */
  method ExtractEd25519PubKey(did: string) returns (r: Option<seq<int>>)
    ensures r == PubKey(did)
  {
    if |did| < |PREFIX| || did[..|PREFIX|] != PREFIX {
      return None;
    }
    var decoded := DecodeBase58(did[|PREFIX|..]);
    if decoded.None? || |decoded.value| < 34 || decoded.value[0] != 0xed || decoded.value[1] != 0x01 {
      return None;
    }
    return Some(decoded.value[2..34]);
  }

  ghost predicate IsDid(did: string) {
    |did| >= |PREFIX| && did[..|PREFIX|] == PREFIX && ValidText(did[|PREFIX|..])
  }

  ghost function Payload(did: string): seq<int>
    requires IsDid(did)
  {
    Decoded(Digits(did[|PREFIX|..]))
  }

  ghost function PubKey(did: string): Option<seq<int>> {
    if IsDid(did) && |Payload(did)| >= 34 && Payload(did)[0] == 0xed && Payload(did)[1] == 0x01
    then Some(Payload(did)[2..34]) else None
  }

  lemma {:induction false} TextOfDigits(s: string, t: string)
    requires ValidText(s) && ValidText(t) && Digits(s) == Digits(t)
    ensures s == t
  {
    hide IndexOf;
    assert |s| == |Digits(s)| == |t|;
    forall i | 0 <= i < |s|
      ensures s[i] == t[i]
    {
      assert Digits(s)[i] == Digits(t)[i];
      IndexOfIsIndex(s[i], 0);
      IndexOfIsIndex(t[i], 0);
    }
  }

  /** Two texts with one payload are one text. */
  lemma PayloadInjective(did: string, other: string)
    requires IsDid(did) && IsDid(other) && Payload(did) == Payload(other)
    ensures did == other
  {
    hide IndexOf, Decoded;
    DecodeInjective(Digits(did[|PREFIX|..]), Digits(other[|PREFIX|..]));
    TextOfDigits(did[|PREFIX|..], other[|PREFIX|..]);
    assert did == PREFIX + did[|PREFIX|..] && other == PREFIX + other[|PREFIX|..];
  }

  /**
   * Among identifiers with a key of exactly 32 bytes the key determines the identifier. The code also takes longer
   * payloads and cuts them, and then two identifiers share a key exactly when their payloads agree on 34 bytes.
   */
  lemma KeysAndIdentifiers(did: string, other: string)
    requires PubKey(did).Some? && PubKey(other).Some?
    ensures PubKey(did) == PubKey(other) <==> Payload(did)[..34] == Payload(other)[..34]
    ensures |Payload(did)| == |Payload(other)| == 34 ==> (PubKey(did) == PubKey(other) <==> did == other)
  {
    hide Payload;
    var p, q := Payload(did), Payload(other);
    assert p[..34] == [0xed, 0x01] + p[2..34];
    assert q[..34] == [0xed, 0x01] + q[2..34];
    if |p| == |q| == 34 && p[..34] == q[..34] {
      assert p == p[..34] && q == q[..34];
      PayloadInjective(did, other);
    }
    if p[..34] == q[..34] {
      assert p[2..34] == p[..34][2..] && q[2..34] == q[..34][2..];
    }
  }

  // ---- letters ----

  function Letters(d: seq<digit>): (s: string)
    ensures |s| == |d|
    ensures forall i :: 0 <= i < |d| ==> s[i] == ALPHABET[d[i]]
  {
    if d == [] then [] else [ALPHABET[d[0]]] + Letters(d[1..])
  }

  /** The alphabet is in ASCII order, so no letter occurs in it twice. */
  lemma Ascending(i: nat)
    requires i < 57
    ensures ALPHABET[i] < ALPHABET[i + 1]
  {
    if i < 8 {
      AscendingDigits(i);
    } else if 9 <= i < 32 {
      AscendingUpper(i - 9);
    } else if 33 <= i {
      AscendingLower(i - 33);
    }
  }

  lemma AscendingDigits(i: nat)
    requires i < 8
    ensures "123456789"[i] < "123456789"[i + 1]
  {
  }

  lemma AscendingUpper(i: nat)
    requires i < 23
    ensures "ABCDEFGHJKLMNPQRSTUVWXYZ"[i] < "ABCDEFGHJKLMNPQRSTUVWXYZ"[i + 1]
  {
  }

  lemma AscendingLower(i: nat)
    requires i < 24
    ensures "abcdefghijkmnopqrstuvwxyz"[i] < "abcdefghijkmnopqrstuvwxyz"[i + 1]
  {
  }

  lemma {:induction false} AscendingFar(i: nat, j: nat)
    requires i < j < 58
    ensures ALPHABET[i] < ALPHABET[j]
    decreases j - i
  {
    Ascending(j - 1);
    if i < j - 1 {
      AscendingFar(i, j - 1);
    }
  }

  lemma {:induction false} IndexOfLetter(d: digit, from: nat)
    requires from <= d
    ensures IndexOf(ALPHABET[d], from) == Some(d)
    decreases d - from
  {
    if from < d {
      AscendingFar(from, d);
      IndexOfLetter(d, from + 1);
    }
  }

  lemma LettersRead(d: seq<digit>)
    ensures ValidText(Letters(d)) && Digits(Letters(d)) == d
  {
    hide IndexOf;
    forall i | 0 <= i < |d|
      ensures IndexOf(Letters(d)[i], 0) == Some(d[i])
    {
      IndexOfLetter(d[i], 0);
    }
  }

  /** Any 32 bytes are the key of an identifier, and of another one for every tail appended to its payload. */
  lemma KeyHasIdentifiers(key: Bytes, tail: Bytes) returns (did: string)
    requires |key| == 32
    ensures IsDid(did) && Payload(did) == [0xed, 0x01] + key + tail
    ensures PubKey(did) == Some(key)
  {
    hide IndexOf, Decoded, Encoded, Letters;
    var b: Bytes := [0xed, 0x01] + key + tail;
    EncodeReads(b);
    LettersRead(Encoded(b));
    did := PREFIX + Letters(Encoded(b));
    assert did[|PREFIX|..] == Letters(Encoded(b));
    assert b[2..34] == key;
  }
}
