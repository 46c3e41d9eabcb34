/** Hexadecimal text as the Python side reads it: normalize_hex, normalize_address and int(s, 16). */
module PyHex {
  import opened Options

  // ---- characters ----

  /** The ASCII characters that str.strip removes. */
  predicate IsSpace(c: char) {
    c == ' ' || 9 <= c as int <= 13 || 28 <= c as int <= 31
  }

  predicate IsLowHex(c: char) {
    '0' <= c <= '9' || 'a' <= c <= 'f'
  }

  predicate IsHexChar(c: char) {
    IsLowHex(c) || 'A' <= c <= 'F'
  }

  function LowerChar(c: char): char {
    if 'A' <= c <= 'Z' then (c as int + 32) as char else c
  }

  function DigitOf(c: char): (d: nat)
    requires IsHexChar(c)
    ensures d < 16
  {
    if c <= '9' then c as int - '0' as int
    else if c <= 'F' then c as int - 'A' as int + 10
    else c as int - 'a' as int + 10
  }

  function DigitChar(d: nat): (c: char)
    requires d < 16
    ensures IsLowHex(c) && DigitOf(c) == d
  {
    if d < 10 then ('0' as int + d) as char else ('a' as int + d - 10) as char
  }

  // ---- text ----

  function StripLeft(s: string): string {
    if s != [] && IsSpace(s[0]) then StripLeft(s[1..]) else s
  }

  function StripRight(s: string): string {
    if s != [] && IsSpace(s[|s| - 1]) then StripRight(s[..|s| - 1]) else s
  }

  function Strip(s: string): string {
    StripRight(StripLeft(s))
  }

  function Lower(s: string): (r: string)
    ensures |r| == |s|
    ensures forall i :: 0 <= i < |s| ==> r[i] == LowerChar(s[i])
  {
    seq(|s|, i requires 0 <= i < |s| => LowerChar(s[i]))
  }

  lemma LowerTwice(s: string)
    ensures Lower(Lower(s)) == Lower(s)
  {
  }

  predicate AllHex(s: string) {
    forall i :: 0 <= i < |s| ==> IsHexChar(s[i])
  }

  predicate AllLow(s: string) {
    forall i :: 0 <= i < |s| ==> IsLowHex(s[i])
  }

  predicate Prefixed(s: string) {
    |s| >= 2 && s[0] == '0' && (s[1] == 'x' || s[1] == 'X')
  }

  function Unprefixed(s: string): string {
    if Prefixed(s) then s[2..] else s
  }

  /** normalize_hex; a value that is not a string is None on the way in. */
  function NormalizeHex(v: Option<string>): Option<string> {
    if v.None? then None
    else
      var cleaned := Unprefixed(Strip(v.value));
      if cleaned == "" || !AllHex(cleaned) then None
      else Some("0x" + Lower(if |cleaned| % 2 != 0 then "0" + cleaned else cleaned))
  }

  /** normalize_address. */
  function NormalizeAddress(v: Option<string>): Option<string> {
    var h := NormalizeHex(v);
    if h.Some? && |h.value| == 42 then h else None
  }

  /** int(s, 16) on plain digits; None is the exception. */
  function HexNumber(s: string): Option<nat> {
    if s == "" || !AllHex(s) then None else Some(HexVal(s))
  }

  function HexVal(s: string): nat
    requires AllHex(s)
  {
    if s == "" then 0 else 16 * HexVal(s[..|s| - 1]) + DigitOf(s[|s| - 1])
  }

  // ---- the normal form ----

  /** What the normalizers produce: 0x, then an even, positive number of lower-case digits. */
  predicate Canonical(x: string) {
    |x| >= 4 && |x| % 2 == 0 && x[..2] == "0x" && AllLow(x[2..])
  }

  lemma {:induction false} NormalizeIsCanonical(v: Option<string>)
    ensures NormalizeHex(v).Some? ==> Canonical(NormalizeHex(v).value)
  {
    hide Strip, Lower, AllHex, AllLow, Canonical;
    if NormalizeHex(v).Some? {
      var cleaned := Unprefixed(Strip(v.value));
      if |cleaned| % 2 == 0 {
        LowerIsCanonical(cleaned);
      } else {
        ZeroFirst(cleaned);
        LowerIsCanonical("0" + cleaned);
      }
    }
  }

  lemma ZeroFirst(s: string)
    requires AllHex(s)
    ensures AllHex("0" + s) && |"0" + s| == |s| + 1
  {
  }

  lemma LowerIsCanonical(s: string)
    requires AllHex(s) && |s| >= 2 && |s| % 2 == 0
    ensures Canonical("0x" + Lower(s))
  {
    assert ("0x" + Lower(s))[2..] == Lower(s);
  }

  lemma NothingToStrip(x: string)
    requires x == "" || (!IsSpace(x[0]) && !IsSpace(x[|x| - 1]))
    ensures Strip(x) == x
  {
  }

  lemma LowStaysLow(s: string)
    requires AllLow(s)
    ensures AllHex(s) && Lower(s) == s
  {
  }

  /** Normal forms are fixed points, so normalization is idempotent. */
  lemma {:induction false} NormalizeCanonical(x: string)
    requires Canonical(x)
    ensures NormalizeHex(Some(x)) == Some(x)
  {
    hide Strip, Lower, AllHex, Canonical;
    CanonicalEnds(x);
    NothingToStrip(x);
    LowStaysLow(x[2..]);
  }

  lemma CanonicalEnds(x: string)
    requires Canonical(x)
    ensures |x| >= 4 && |x| % 2 == 0 && x == "0x" + x[2..] && AllLow(x[2..]) && Prefixed(x)
    ensures !IsSpace(x[0]) && !IsSpace(x[|x| - 1])
  {
    var body := x[2..];
    assert x[..2][0] == x[0] && x[..2][1] == x[1];
    assert x[|x| - 1] == body[|body| - 1];
  }

  predicate AllSpace(s: string) {
    forall i :: 0 <= i < |s| ==> IsSpace(s[i])
  }

  /** The text is these hex digits, with or without a prefix, between blanks. */
  ghost predicate Wraps(text: string, digits: string) {
    exists left: string, prefix: string, right: string ::
      && AllSpace(left) && AllSpace(right) && prefix in {"", "0x", "0X"}
      && text == left + (prefix + digits) + right
  }

  lemma {:induction false} StripLeftSplits(s: string) returns (left: string)
    ensures AllSpace(left) && s == left + StripLeft(s)
    ensures StripLeft(s) != "" ==> !IsSpace(StripLeft(s)[0])
  {
    left := "";
    if s != "" && IsSpace(s[0]) {
      var more := StripLeftSplits(s[1..]);
      left := [s[0]] + more;
      assert s == [s[0]] + s[1..];
    }
  }

  lemma {:induction false} StripRightSplits(s: string) returns (right: string)
    ensures AllSpace(right) && s == StripRight(s) + right
    ensures StripRight(s) != "" ==> !IsSpace(StripRight(s)[|StripRight(s)| - 1])
  {
    right := "";
    if s != "" && IsSpace(s[|s| - 1]) {
      var more := StripRightSplits(s[..|s| - 1]);
      right := more + [s[|s| - 1]];
      assert s == s[..|s| - 1] + [s[|s| - 1]];
    }
  }

  lemma {:induction false} StripLeftDrops(left: string, core: string)
    requires AllSpace(left) && core != "" && !IsSpace(core[0])
    ensures StripLeft(left + core) == core
  {
    if left == "" {
      assert left + core == core;
    } else {
      assert (left + core)[1..] == left[1..] + core;
      StripLeftDrops(left[1..], core);
    }
  }

  lemma {:induction false} StripRightDrops(core: string, right: string)
    requires AllSpace(right) && core != "" && !IsSpace(core[|core| - 1])
    ensures StripRight(core + right) == core
  {
    if right == "" {
      assert core + right == core;
    } else {
      var n := |right| - 1;
      assert (core + right)[..|core| + n] == core + right[..n];
      StripRightDrops(core, right[..n]);
    }
  }

  /** Blanks around a text that neither starts nor ends with one are stripped. */
  lemma StripDrops(left: string, core: string, right: string)
    requires AllSpace(left) && AllSpace(right) && core != "" && !IsSpace(core[0]) && !IsSpace(core[|core| - 1])
    ensures Strip(left + core + right) == core
  {
    assert left + core + right == left + (core + right);
    StripLeftDrops(left, core + right);
    StripRightDrops(core, right);
  }

  lemma {:induction false} WrappedIsRead(text: string, digits: string)
    requires digits != "" && AllHex(digits) && Wraps(text, digits)
    ensures Unprefixed(Strip(text)) == digits
  {
    hide Strip;
    var left: string, prefix: string, right: string :|
      && AllSpace(left) && AllSpace(right) && prefix in {"", "0x", "0X"}
      && text == left + (prefix + digits) + right;
    var core := prefix + digits;
    assert IsHexChar(digits[0]) && IsHexChar(digits[|digits| - 1]);
    assert |digits| >= 2 ==> IsHexChar(digits[1]);
    assert core[|core| - 1] == digits[|digits| - 1];
    StripDrops(left, core, right);
  }

  /**
   * normalize_hex, exactly: the result is 0x and the lower-case digits of the text, with one zero in front if their
   * number is odd; there is a result exactly when the text is at least one hex digit, prefixed or not, between blanks.
   */
  lemma {:induction false} NormalizeExactly(text: string, x: string)
    ensures NormalizeHex(Some(text)) == Some(x)
      <==>
      exists digits: string ::
        && digits != "" && AllHex(digits) && Wraps(text, digits)
        && x == "0x" + (if |digits| % 2 == 0 then Lower(digits) else "0" + Lower(digits))
  {
    hide Strip, Lower;
    var core := Strip(text);
    var cleaned := Unprefixed(core);
    LowerZero(cleaned);
    if cleaned != "" && AllHex(cleaned) {
      StrippedIsWrapped(text);
    }
    forall digits: string | digits != "" && AllHex(digits) && Wraps(text, digits)
      ensures digits == cleaned
    {
      WrappedIsRead(text, digits);
    }
  }

  lemma LowerZero(s: string)
    ensures Lower("0" + s) == "0" + Lower(s)
  {
  }

  lemma StrippedIsWrapped(text: string)
    ensures Wraps(text, Unprefixed(Strip(text)))
  {
    hide StripLeft, StripRight;
    var left := StripLeftSplits(text);
    var right := StripRightSplits(StripLeft(text));
    var core := Strip(text);
    var prefix := if Prefixed(core) then core[..2] else "";
    assert Prefixed(core) ==> prefix == [core[0], core[1]];
    assert core == prefix + Unprefixed(core);
    assert text == left + (prefix + Unprefixed(core)) + right;
  }

  // ---- numbers ----

  function Pow16(k: nat): (p: nat)
    ensures p >= 1
  {
    if k == 0 then 1 else 16 * Pow16(k - 1)
  }

  /** A number in exactly k digits. */
  function HexText(n: nat, k: nat): (s: string)
    ensures |s| == k
  {
    if k == 0 then "" else HexText(n / 16, k - 1) + [DigitChar(n % 16)]
  }

  lemma {:induction false} HexTextReads(n: nat, k: nat)
    requires n < Pow16(k)
    ensures AllLow(HexText(n, k)) && AllHex(HexText(n, k)) && HexVal(HexText(n, k)) == n
  {
    hide DigitChar;
    if k > 0 {
      HexTextReads(n / 16, k - 1);
      var s := HexText(n, k);
      assert s[..|s| - 1] == HexText(n / 16, k - 1);
    }
  }

  lemma CharOfDigit(c: char)
    requires IsLowHex(c)
    ensures DigitChar(DigitOf(c)) == c
  {
    var d := DigitOf(c);
    assert d < 10 <==> c <= '9';
    assert d < 10 ==> '0' as int + d == c as int;
    assert d >= 10 ==> 'a' as int + d - 10 == c as int;
  }

  /** Lower-case digits are the only text of their number at their length. */
  lemma {:induction false} TextOfNumber(s: string)
    requires AllLow(s) && AllHex(s)
    ensures HexVal(s) < Pow16(|s|) && HexText(HexVal(s), |s|) == s
  {
    hide DigitChar, DigitOf;
    if s != "" {
      var init, last := s[..|s| - 1], s[|s| - 1];
      TextOfNumber(init);
      CharOfDigit(last);
      assert HexVal(s) / 16 == HexVal(init) && HexVal(s) % 16 == DigitOf(last);
      assert s == init + [last];
    }
  }
}
