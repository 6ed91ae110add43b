/**
 * Decimal text: the integers the alert message prints (Python's `str` of an int)
 * and the odds quotes the rule compares against 1.40 (Python's `float` of a string),
 * the latter read as an exact decimal number instead of a binary float.
 */
module Numerals {
  import opened Wrappers

  predicate IsDigit(c: char) { '0' <= c <= '9' }

  predicate AllDigits(s: string) { forall i :: 0 <= i < |s| ==> IsDigit(s[i]) }

  function DigitValue(c: char): (d: nat)
    requires IsDigit(c)
    ensures d < 10
  {
    c as int - '0' as int
  }

  function DigitChar(d: nat): (c: char)
    requires d < 10
    ensures IsDigit(c) && DigitValue(c) == d
  {
    ('0' as int + d) as char
  }

  /** `n * 10^k`, written as repeated multiplication by ten so that it stays linear for the solver. */
  function Shift(n: nat, k: nat): (r: nat)
    ensures n <= r
    ensures n > 0 ==> r > 0
  {
    if k == 0 then n else 10 * Shift(n, k - 1)
  }

  lemma {:induction false} ShiftTimesTen(n: nat, k: nat)
    ensures Shift(n * 10, k) == 10 * Shift(n, k)
  {
    if k > 0 {
      ShiftTimesTen(n, k - 1);
    }
  }

  /** The number a string of decimal digits denotes, most significant digit first ("" denotes 0). */
  function DigitsValue(s: string): nat
    requires AllDigits(s)
    decreases |s|
  {
    if s == [] then 0 else 10 * DigitsValue(s[..|s| - 1]) + DigitValue(s[|s| - 1])
  }

  /** Reading `a + b` is reading `a`, shifting it by the length of `b`, and adding `b`. */
  lemma {:induction false} DigitsValueAppend(a: string, b: string)
    requires AllDigits(a) && AllDigits(b)
    ensures AllDigits(a + b)
    ensures DigitsValue(a + b) == Shift(DigitsValue(a), |b|) + DigitsValue(b)
  {
    if b == [] {
      assert a + b == a;
    } else {
      var b' := b[..|b| - 1];
      var d := DigitValue(b[|b| - 1]);
      assert (a + b)[..|a + b| - 1] == a + b';
      assert (a + b)[|a + b| - 1] == b[|b| - 1];
      DigitsValueAppend(a, b');
      assert DigitsValue(b) == 10 * DigitsValue(b') + d;
    }
  }

  /** Python's `str(n)` for a non-negative integer: its decimal digits without leading zeros. */
  function NatToString(n: nat): string {
    if n < 10 then [DigitChar(n)] else NatToString(n / 10) + [DigitChar(n % 10)]
  }

  /** Python's `str(n)` for any integer: a minus sign in front of the digits of `-n` when `n < 0`. */
  function IntToString(n: int): string {
    if n < 0 then "-" + NatToString(-n) else NatToString(n)
  }

  /** `NatToString` writes digits only, without a leading zero, and reading them back gives `n`. */
  lemma {:induction false} NatToStringDigits(n: nat)
    ensures var s := NatToString(n);
      AllDigits(s) && |s| >= 1 && (n == 0 ==> s == "0") && (n > 0 ==> s[0] != '0') && DigitsValue(s) == n
  {
    if n >= 10 {
      NatToStringDigits(n / 10);
      var front := NatToString(n / 10);
      var s := front + [DigitChar(n % 10)];
      assert s[..|s| - 1] == front;
    }
  }

  /** `IntToString` writes the canonical form: non-empty, a minus sign exactly for negative numbers,
      no leading zero, and the digits read back as the magnitude. */
  lemma IntToStringDigits(n: int)
    ensures var s := IntToString(n);
      |s| >= 1 && (n == 0 ==> s == "0")
      && (n >= 0 ==> AllDigits(s) && DigitsValue(s) == n && (n > 0 ==> s[0] != '0'))
      && (n < 0 ==> |s| >= 2 && s[0] == '-' && s[1] != '0' && AllDigits(s[1..]) && DigitsValue(s[1..]) == -n)
  {
    if n < 0 {
      NatToStringDigits(-n);
      assert ("-" + NatToString(-n))[1..] == NatToString(-n);
    } else {
      NatToStringDigits(n);
    }
  }

  /** An exact non-negative decimal number, `digits / 10^scale`. */
  datatype Decimal = Decimal(digits: nat, scale: nat)

  /** `x >= y` as rational numbers. */
  predicate AtLeast(x: Decimal, y: Decimal) {
    Shift(x.digits, y.scale) >= Shift(y.digits, x.scale)
  }

  /** The text forms of an odds quote the model accepts: digits, optionally with one decimal point
      and at least one digit overall ("1.55", "2", "1.", ".5"). */
  predicate IsDecimalText(s: string) {
    (s != [] && AllDigits(s))
    || (exists k :: 0 <= k < |s| && s[k] == '.' && AllDigits(s[..k]) && AllDigits(s[k + 1..]) && |s| >= 2)
  }

  /**
   * Reads decimal text left to right. `value` and `scale` hold what the digits read so far
   * denote (`value / 10^scale`), `point` records that the decimal point has been read and
   * `digit` that at least one digit has.
   */
  function Scan(s: string, value: nat, scale: nat, point: bool, digit: bool): Option<Decimal>
    decreases |s|
  {
    if s == [] then (if digit then Some(Decimal(value, scale)) else None)
    else if IsDigit(s[0]) then Scan(s[1..], 10 * value + DigitValue(s[0]), if point then scale + 1 else scale, point, true)
    else if s[0] == '.' && !point then Scan(s[1..], value, scale, true, digit)
    else None
  }

  /** Reads an odds quote; `None` for any text that is not plain decimal text, which the model treats as unreadable. */
  function ParseDecimal(s: string): Option<Decimal> {
    Scan(s, 0, 0, false, false)
  }

  lemma {:induction false} ShiftAdd(a: nat, b: nat, k: nat)
    ensures Shift(a + b, k) == Shift(a, k) + Shift(b, k)
  {
    if k > 0 {
      ShiftAdd(a, b, k - 1);
    }
  }

  lemma {:induction false} ShiftZero(k: nat)
    ensures Shift(0, k) == 0
  {
    if k > 0 {
      ShiftZero(k - 1);
    }
  }

  /** Reading one more leading digit `c` in front of `d`, as the scanner does it and as `DigitsValue` does it. */
  lemma LeadingDigit(c: char, d: string, value: nat)
    requires IsDigit(c) && AllDigits(d)
    ensures AllDigits([c] + d)
    ensures Shift(10 * value + DigitValue(c), |d|) + DigitsValue(d) == Shift(value, |d| + 1) + DigitsValue([c] + d)
  {
    var k, dc := |d|, DigitValue(c);
    var sv := Shift(value, k);
    ShiftAdd(10 * value, dc, k);
    ShiftTimesTen(value, k);
    assert value * 10 == 10 * value;
    assert Shift(10 * value, k) == 10 * sv;
    assert Shift(value, k + 1) == 10 * sv;
    assert DigitsValue([c]) == dc by {
      assert [c][..0] == [];
    }
    DigitsValueAppend([c], d);
    assert DigitsValue([c] + d) == Shift(dc, k) + DigitsValue(d);
  }

  /** A run of digits is read as a whole: it shifts the value read so far and adds its own. */
  lemma {:induction false} ScanDigits(d: string, rest: string, value: nat, scale: nat, point: bool, digit: bool)
    requires AllDigits(d)
    ensures Scan(d + rest, value, scale, point, digit)
      == Scan(rest, Shift(value, |d|) + DigitsValue(d), if point then scale + |d| else scale, point, digit || d != [])
  {
    if d == [] {
      assert d + rest == rest;
    } else {
      var c, d' := d[0], d[1..];
      assert AllDigits(d') && [c] + d' == d;
      assert (d + rest)[0] == c && (d + rest)[1..] == d' + rest;
      ScanDigits(d', rest, 10 * value + DigitValue(c), if point then scale + 1 else scale, point, true);
      LeadingDigit(c, d', value);
    }
  }

  /** A whole number of digits reads as that number. */
  lemma ParseWhole(w: string)
    requires w != [] && AllDigits(w)
    ensures ParseDecimal(w) == Some(Decimal(DigitsValue(w), 0))
  {
    ScanDigits(w, [], 0, 0, false, false);
    ShiftZero(|w|);
    assert w + [] == w;
  }

  /** `w.f` reads as the digits of `w` followed by those of `f`, scaled down by `10^|f|`. */
  lemma ParseFraction(w: string, f: string)
    requires AllDigits(w) && AllDigits(f) && |w| + |f| > 0
    ensures AllDigits(w + f)
    ensures ParseDecimal(w + "." + f) == Some(Decimal(DigitsValue(w + f), |f|))
  {
    var pf := "." + f;
    assert w + "." + f == w + pf;
    ScanDigits(w, pf, 0, 0, false, false);
    ShiftZero(|w|);
    var v := DigitsValue(w);
    assert Scan(w + pf, 0, 0, false, false) == Scan(pf, v, 0, false, w != []);
    assert pf[0] == '.' && pf[1..] == f;
    assert Scan(pf, v, 0, false, w != []) == Scan(f, v, 0, true, w != []);
    ScanDigits(f, [], v, 0, true, w != []);
    assert f + [] == f;
    assert Scan(f, v, 0, true, w != []) == Some(Decimal(Shift(v, |f|) + DigitsValue(f), |f|));
    DigitsValueAppend(w, f);
  }

  /** Whatever the scanner accepts has the shape of decimal text. */
  lemma {:induction false} ScanShape(s: string, value: nat, scale: nat, point: bool, digit: bool)
    requires Scan(s, value, scale, point, digit).Some?
    ensures (AllDigits(s) && (digit || s != []))
      || (!point && exists k :: 0 <= k < |s| && s[k] == '.' && AllDigits(s[..k]) && AllDigits(s[k + 1..]) && (digit || |s| >= 2))
  {
    if s != [] {
      var s' := s[1..];
      if IsDigit(s[0]) {
        ScanShape(s', 10 * value + DigitValue(s[0]), if point then scale + 1 else scale, point, true);
        if AllDigits(s') {
          assert AllDigits(s);
        } else {
          var k' :| 0 <= k' < |s'| && s'[k'] == '.' && AllDigits(s'[..k']) && AllDigits(s'[k' + 1..]);
          assert s[..k' + 1] == [s[0]] + s'[..k'];
          assert s[k' + 2..] == s'[k' + 1..];
          assert s[k' + 1] == '.';
        }
      } else {
        ScanShape(s', value, scale, true, digit);
        assert s[..0] == [] && s[1..] == s';
        assert s[0] == '.';
      }
    }
  }

  /** The parser accepts exactly the decimal texts. */
  lemma ParseDecimalAccepts(s: string)
    ensures ParseDecimal(s).Some? <==> IsDecimalText(s)
  {
    if ParseDecimal(s).Some? {
      ScanShape(s, 0, 0, false, false);
    }
    if IsDecimalText(s) {
      if s != [] && AllDigits(s) {
        ParseWhole(s);
      } else {
        var k :| 0 <= k < |s| && s[k] == '.' && AllDigits(s[..k]) && AllDigits(s[k + 1..]) && |s| >= 2;
        assert s == s[..k] + "." + s[k + 1..];
        ParseFraction(s[..k], s[k + 1..]);
      }
    }
  }

  /** Trailing zeros in the fraction do not change a comparison: "1.4" and "1.40" compare alike. */
  lemma AtLeastRescale(n: nat, scale: nat, y: Decimal)
    ensures AtLeast(Decimal(n * 10, scale + 1), y) <==> AtLeast(Decimal(n, scale), y)
  {
    ShiftTimesTen(n, y.scale);
  }

  /** The same at the level of text: appending a zero to a fraction leaves its comparison alone. */
  lemma TrailingZeroIrrelevant(w: string, f: string, y: Decimal)
    requires AllDigits(w) && AllDigits(f) && |w| + |f| > 0
    ensures ParseDecimal(w + "." + f).Some? && ParseDecimal(w + "." + f + "0").Some?
    ensures AtLeast(ParseDecimal(w + "." + f + "0").value, y) <==> AtLeast(ParseDecimal(w + "." + f).value, y)
  {
    var f0 := f + "0";
    assert AllDigits("0");
    assert AllDigits(f0);
    ParseFraction(w, f);
    ParseFraction(w, f0);
    assert w + "." + f + "0" == w + "." + f0;
    assert w + f0 == (w + f) + "0";
    DigitsValueAppend(w + f, "0");
    assert DigitsValue("0") == 0 by {
      assert "0"[..0] == [];
    }
    assert DigitsValue(w + f0) == DigitsValue(w + f) * 10;
    AtLeastRescale(DigitsValue(w + f), |f|, y);
  }

  /** A quote and a threshold both given in hundredths compare as integers. */
  lemma AtLeastHundredths(n: nat, t: nat)
    ensures AtLeast(Decimal(n, 2), Decimal(t, 2)) <==> n >= t
  {
    assert Shift(n, 1) == 10 * n && Shift(t, 1) == 10 * t;
    assert Shift(n, 2) == 100 * n && Shift(t, 2) == 100 * t;
  }
}
