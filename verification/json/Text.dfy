/** JavaScript strings: sequences of UTF-16 code units, compared unit by unit. */
module Text {

  type unit16 = u: int | 0 <= u < 0x10000

  type Text = seq<unit16>

  /** An ASCII literal as code units. */
  function U(s: string): (t: Text)
    ensures |t| == |s|
  {
    seq(|s|, i requires 0 <= i < |s| => if s[i] as int < 0x10000 then s[i] as int else 0xFFFD)
  }

  /** The order of Array.prototype.sort on strings and of section 3.2.3 of RFC 8785. */
  predicate Less(a: Text, b: Text) {
    if b == [] then false
    else if a == [] then true
    else a[0] < b[0] || (a[0] == b[0] && Less(a[1..], b[1..]))
  }

  /** Lexicographic: after a common prefix, a ends or has the smaller code unit. */
  ghost predicate Before(a: Text, b: Text) {
    exists k: nat :: k <= |a| && k < |b| && a[..k] == b[..k] && (k == |a| || a[k] < b[k])
  }

  /** The order that recursion computes is the lexicographic one. */
  lemma {:induction false} LessIsBefore(a: Text, b: Text)
    ensures Less(a, b) <==> Before(a, b)
  {
    hide Before;
    if a == [] || b == [] {
      BeforeAtEnds(a, b);
    } else {
      LessIsBefore(a[1..], b[1..]);
      if Before(a, b) {
        BeforeUnfolds(a, b);
      }
      if Less(a, b) {
        BeforeFolds(a, b);
      }
    }
  }

  lemma BeforeAtEnds(a: Text, b: Text)
    requires a == [] || b == []
    ensures Before(a, b) <==> a == [] && b != []
  {
    assert a[..0] == b[..0];
  }

  lemma {:induction false} BeforeUnfolds(a: Text, b: Text)
    requires a != [] && b != [] && Before(a, b)
    ensures a[0] < b[0] || (a[0] == b[0] && Before(a[1..], b[1..]))
  {
    var k: nat :| k <= |a| && k < |b| && a[..k] == b[..k] && (k == |a| || a[k] < b[k]);
    if k > 0 {
      assert a[..k][0] == b[..k][0];
      assert a[1..][..k - 1] == a[..k][1..] && b[1..][..k - 1] == b[..k][1..];
    }
  }

  lemma {:induction false} BeforeFolds(a: Text, b: Text)
    requires a != [] && b != [] && (a[0] < b[0] || (a[0] == b[0] && Before(a[1..], b[1..])))
    ensures Before(a, b)
  {
    if a[0] < b[0] {
      assert a[..0] == b[..0];
    } else {
      var x, y := a[1..], b[1..];
      var k: nat :| k <= |x| && k < |y| && x[..k] == y[..k] && (k == |x| || x[k] < y[k]);
      assert a[..k + 1] == [a[0]] + x[..k] && b[..k + 1] == [b[0]] + y[..k];
    }
  }

  lemma {:induction false} LessIsTotal(a: Text, b: Text)
    ensures Less(a, b) || Less(b, a) || a == b
    ensures !(Less(a, b) && Less(b, a))
    ensures Less(a, b) ==> a != b
  {
    if a != [] && b != [] {
      LessIsTotal(a[1..], b[1..]);
      assert a == [a[0]] + a[1..] && b == [b[0]] + b[1..];
    }
  }

  lemma {:induction false} LessIsTransitive(a: Text, b: Text, c: Text)
    requires Less(a, b) && Less(b, c)
    ensures Less(a, c)
  {
    if a != [] && b != [] && c != [] && a[0] == b[0] == c[0] {
      LessIsTransitive(a[1..], b[1..], c[1..]);
    }
  }
}
