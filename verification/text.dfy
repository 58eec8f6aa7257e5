/** Strings as Python compares and formats them: lexicographic order by code
    point, and zero-padded decimal fields as `strftime` writes them. */
module Text {

  import opened Arith

  /** Python's `a < b` on `str`: the first differing character decides, and a
      proper prefix sorts first. */
  predicate LexLess(a: string, b: string)
    decreases |a|
  {
    if |a| == 0 then |b| > 0
    else if |b| == 0 then false
    else if a[0] != b[0] then a[0] < b[0]
    else LexLess(a[1..], b[1..])
  }

  lemma {:induction false} LexLessIrreflexive(a: string)
    ensures !LexLess(a, a)
    decreases |a|
  {
    if |a| > 0 {
      LexLessIrreflexive(a[1..]);
    }
  }

  lemma {:induction false} LexLessTransitive(a: string, b: string, c: string)
    requires LexLess(a, b) && LexLess(b, c)
    ensures LexLess(a, c)
    decreases |a|
  {
    if |a| > 0 && a[0] == b[0] && b[0] == c[0] {
      LexLessTransitive(a[1..], b[1..], c[1..]);
    }
  }

  lemma {:induction false} LexLessTotal(a: string, b: string)
    ensures a == b || LexLess(a, b) || LexLess(b, a)
    decreases |a|
  {
    if |a| > 0 && |b| > 0 && a[0] == b[0] {
      LexLessTotal(a[1..], b[1..]);
      if a[1..] == b[1..] {
        assert a == [a[0]] + a[1..] && b == [b[0]] + b[1..];
      }
    }
  }

  /** Comparing two strings that start with equally long heads: the heads
      decide unless they are equal, and then the tails decide. */
  lemma {:induction false} LexLessConcat(p: string, q: string, x: string, y: string)
    requires |p| == |q|
    ensures LexLess(p + x, q + y) <==> LexLess(p, q) || (p == q && LexLess(x, y))
    decreases |p|
  {
    if |p| > 0 {
      assert (p + x)[0] == p[0] && (q + y)[0] == q[0];
      assert (p + x)[1..] == p[1..] + x && (q + y)[1..] == q[1..] + y;
      LexLessConcat(p[1..], q[1..], x, y);
      if p[0] == q[0] && p[1..] == q[1..] {
        assert p == [p[0]] + p[1..] && q == [q[0]] + q[1..];
      }
      if p == q {
        assert p[1..] == q[1..];
      }
    } else {
      assert p + x == x && q + y == y && p == q;
      LexLessIrreflexive(p);
    }
  }

  predicate IsDigit(c: char) {
    '0' <= c <= '9'
  }

  predicate AllDigits(s: string) {
    forall i :: 0 <= i < |s| ==> IsDigit(s[i])
  }

  function DigitValue(c: char): nat
    requires IsDigit(c)
  {
    c as int - '0' as int
  }

  function Digit(n: nat): (c: char)
    requires n < 10
    ensures IsDigit(c) && DigitValue(c) == n
  {
    ('0' as int + n) as char
  }

  function Pow10(n: nat): (p: nat)
    ensures p >= 1
  {
    if n == 0 then 1 else 10 * Pow10(n - 1)
  }

  /** The number a string of decimal digits denotes, most significant first. */
  function NumberValue(s: string): (v: nat)
    requires AllDigits(s)
    ensures v < Pow10(|s|)
  {
    if |s| == 0 then 0
    else
      var rest := NumberValue(s[1..]);
      var p := Pow10(|s| - 1);
      MulMonotone(DigitValue(s[0]), 9, p);
      DigitValue(s[0]) * p + rest
  }

  /** `n` written with exactly `width` digits, zero-padded on the left, as
      `%02d`-style fields of `strftime` write it. */
  function PadNumber(n: nat, width: nat): (s: string)
    requires n < Pow10(width)
    ensures |s| == width && AllDigits(s)
    ensures NumberValue(s) == n
    decreases width
  {
    if width == 0 then ""
    else
      var p := Pow10(width - 1);
      var lead := n / p;
      var low := n % p;
      LeadDigit(n, p, lead, low);
      var s := [Digit(lead)] + PadNumber(low, width - 1);
      assert s[1..] == PadNumber(low, width - 1);
      s
  }

  lemma LeadDigit(n: nat, p: nat, lead: int, low: int)
    requires p >= 1 && n < 10 * p && lead == n / p && low == n % p
    ensures 0 <= lead < 10 && 0 <= low < p && n == lead * p + low
  {
    if lead >= 10 {
      MulMonotone(10, lead, p);
    }
  }

  /** A digit string is the padded rendering of its own value: parsing a
      field and writing it back at the same width gives the field. */
  lemma {:induction false} PadNumberOfValue(s: string)
    requires AllDigits(s)
    ensures PadNumber(NumberValue(s), |s|) == s
    decreases |s|
  {
    if |s| > 0 {
      var p := Pow10(|s| - 1);
      var rest := NumberValue(s[1..]);
      var v := NumberValue(s);
      assert v == DigitValue(s[0]) * p + rest;
      assert v / p == DigitValue(s[0]) && v % p == rest by {
        DivModUnique(v, p, DigitValue(s[0]), rest);
      }
      PadNumberOfValue(s[1..]);
      assert Digit(DigitValue(s[0])) == s[0];
      assert s == [s[0]] + s[1..];
    }
  }

  /** Equally long digit strings sort as the numbers they denote. */
  lemma {:induction false} LexLessDigits(a: string, b: string)
    requires AllDigits(a) && AllDigits(b) && |a| == |b|
    ensures LexLess(a, b) <==> NumberValue(a) < NumberValue(b)
    decreases |a|
  {
    if |a| > 0 {
      var p := Pow10(|a| - 1);
      var da, db := DigitValue(a[0]), DigitValue(b[0]);
      var ra, rb := NumberValue(a[1..]), NumberValue(b[1..]);
      assert NumberValue(a) == da * p + ra;
      assert NumberValue(b) == db * p + rb;
      if da < db {
        assert a[0] < b[0];
        LeadDominates(da, db, ra, rb, p);
      } else if db < da {
        assert b[0] < a[0];
        LeadDominates(db, da, rb, ra, p);
      } else {
        assert a[0] == b[0];
        assert LexLess(a, b) == LexLess(a[1..], b[1..]);
        assert da * p == db * p;
        LexLessDigits(a[1..], b[1..]);
      }
    }
  }
}
