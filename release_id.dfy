/**
 * The release identifier: the deploy time formatted as PHP's `YmdHis`,
 * that is, the year with at least four digits followed by month, day,
 * hour, minute and second with exactly two digits each, all zero-padded
 * and without separators. The clock is not read: the date components are
 * the input.
 */
module ReleaseId {
  import opened Text

  datatype Timestamp = Timestamp(year: nat, month: nat, day: nat, hour: nat, minute: nat, second: nat)

  /** The components a calendar date-time can have. */
  predicate Valid(t: Timestamp)
  {
    1 <= t.month <= 12 && 1 <= t.day <= 31 && t.hour < 24 && t.minute < 60 && t.second < 60
  }

  /** Chronological order: by year, then month, day, hour, minute, second. */
  predicate Earlier(a: Timestamp, b: Timestamp)
  {
    a.year < b.year || (a.year == b.year &&
    (a.month < b.month || (a.month == b.month &&
    (a.day < b.day || (a.day == b.day &&
    (a.hour < b.hour || (a.hour == b.hour &&
    (a.minute < b.minute || (a.minute == b.minute &&
    a.second < b.second)))))))))
  }

  function Pow10(w: nat): (r: nat)
    ensures r >= 1
  {
    if w == 0 then 1 else 10 * Pow10(w - 1)
  }

  function Digit(d: nat): (c: char)
    requires d < 10
    ensures '0' <= c <= '9'
  {
    (48 + d) as char
  }

  predicate IsDigits(s: string)
  {
    forall i :: 0 <= i < |s| ==> '0' <= s[i] <= '9'
  }

  /** `n` in decimal, zero-padded to at least `width` digits (at least one digit). */
  function Decimal(n: nat, width: nat): (r: string)
    ensures |r| > 0 && IsDigits(r)
    decreases n + width
  {
    if n < 10 && width <= 1 then [Digit(n)]
    else Decimal(n / 10, if width == 0 then 0 else width - 1) + [Digit(n % 10)]
  }

  /**
   * The identifier PHP's `format('YmdHis')` produces for `t`: digits only,
   * and at least the fourteen of a four-digit year and five two-digit fields.
   */
  function Format(t: Timestamp): (r: string)
    ensures IsDigits(r) && |r| >= 14
  {
    var y, m, d := Decimal(t.year, 4), Decimal(t.month, 2), Decimal(t.day, 2);
    var h, i, s := Decimal(t.hour, 2), Decimal(t.minute, 2), Decimal(t.second, 2);
    DecimalLength(t.year, 4);
    DecimalLength(t.month, 2);
    DecimalLength(t.day, 2);
    DecimalLength(t.hour, 2);
    DecimalLength(t.minute, 2);
    DecimalLength(t.second, 2);
    DigitsConcat(y, m);
    DigitsConcat(y + m, d);
    DigitsConcat(y + m + d, h);
    DigitsConcat(y + m + d + h, i);
    DigitsConcat(y + m + d + h + i, s);
    y + m + d + h + i + s
  }

  lemma DigitsConcat(a: string, b: string)
    requires IsDigits(a) && IsDigits(b)
    ensures IsDigits(a + b)
  {
    forall t | 0 <= t < |a + b|
      ensures '0' <= (a + b)[t] <= '9'
    {
      if t >= |a| {
        assert (a + b)[t] == b[t - |a|];
      }
    }
  }

  /** Padding gives exactly `width` digits precisely when `n` fits in them. */
  lemma {:induction false} DecimalLength(n: nat, width: nat)
    requires width >= 1
    ensures |Decimal(n, width)| >= width
    ensures |Decimal(n, width)| == width <==> n < Pow10(width)
    decreases width
  {
    if width > 1 {
      DecimalLength(n / 10, width - 1);
    } else if n >= 10 {
      DecimalLonger(n / 10);
    }
  }

  lemma {:induction false} DecimalLonger(n: nat)
    ensures |Decimal(n, 0)| >= 1
  {
  }

  lemma DigitOrder(a: nat, b: nat)
    requires a < 10 && b < 10
    ensures Digit(a) < Digit(b) <==> a < b
    ensures Digit(a) == Digit(b) <==> a == b
  {
  }

  /** Numbers compare by all but their last decimal digit, then by the last one. */
  lemma DivMod10(n: nat, m: nat)
    ensures n < m <==> n / 10 < m / 10 || (n / 10 == m / 10 && n % 10 < m % 10)
    ensures n == m <==> n / 10 == m / 10 && n % 10 == m % 10
  {
    assert n == 10 * (n / 10) + n % 10 && m == 10 * (m / 10) + m % 10;
  }

  /** One-character strings compare like their characters. */
  lemma SingleLexLess(a: char, b: char)
    ensures LexLess([a], [b]) <==> a < b
  {
    assert [a][1..] == [];
  }

  /** Fixed-width decimals compare, as strings, like the numbers they denote. */
  lemma {:induction false} DecimalOrder(n: nat, m: nat, width: nat)
    requires width >= 1 && n < Pow10(width) && m < Pow10(width)
    ensures LexLess(Decimal(n, width), Decimal(m, width)) <==> n < m
    ensures Decimal(n, width) == Decimal(m, width) <==> n == m
    decreases width
  {
    if width == 1 {
      DigitOrder(n, m);
      SingleLexLess(Digit(n), Digit(m));
    } else {
      assert n / 10 < Pow10(width - 1) && m / 10 < Pow10(width - 1);
      DecimalOrder(n / 10, m / 10, width - 1);
      DecimalOrderStep(n, m, width);
    }
  }

  /**
   * The step of `DecimalOrder`: with the leading digits ordered like the
   * numbers they denote, so are the whole decimals.
   */
  lemma DecimalOrderStep(n: nat, m: nat, width: nat)
    requires width >= 2 && n < Pow10(width) && m < Pow10(width)
    requires LexLess(Decimal(n / 10, width - 1), Decimal(m / 10, width - 1)) <==> n / 10 < m / 10
    requires Decimal(n / 10, width - 1) == Decimal(m / 10, width - 1) <==> n / 10 == m / 10
    ensures LexLess(Decimal(n, width), Decimal(m, width)) <==> n < m
    ensures Decimal(n, width) == Decimal(m, width) <==> n == m
  {
    var p, q := Decimal(n / 10, width - 1), Decimal(m / 10, width - 1);
    var a, b := Digit(n % 10), Digit(m % 10);
    assert Decimal(n, width) == p + [a];
    assert Decimal(m, width) == q + [b];
    assert n / 10 < Pow10(width - 1) && m / 10 < Pow10(width - 1);
    DecimalLength(n / 10, width - 1);
    DecimalLength(m / 10, width - 1);
    LexLessConcat(p, [a], q, [b]);
    ConcatEqual(p, [a], q, [b]);
    SingleLexLess(a, b);
    DigitOrder(n % 10, m % 10);
    DivMod10(n, m);
  }

  /** Comparing one more fixed-width field after an equal-width head. */
  lemma FieldStep(p: string, q: string, a: nat, b: nat, w: nat)
    requires |p| == |q| && w >= 1 && a < Pow10(w) && b < Pow10(w)
    ensures LexLess(p + Decimal(a, w), q + Decimal(b, w)) <==> LexLess(p, q) || (p == q && a < b)
    ensures p + Decimal(a, w) == q + Decimal(b, w) <==> p == q && a == b
  {
    LexLessConcat(p, Decimal(a, w), q, Decimal(b, w));
    DecimalOrder(a, b, w);
    DecimalLength(a, w);
    DecimalLength(b, w);
    ConcatEqual(p, Decimal(a, w), q, Decimal(b, w));
  }

  /** The identifier has exactly fourteen characters until the year 9999. */
  lemma FormatShape(t: Timestamp)
    requires Valid(t)
    ensures |Format(t)| == 14 <==> t.year <= 9999
  {
    DecimalLength(t.year, 4);
    DecimalLength(t.month, 2);
    DecimalLength(t.day, 2);
    DecimalLength(t.hour, 2);
    DecimalLength(t.minute, 2);
    DecimalLength(t.second, 2);
    assert Pow10(2) == 100 && Pow10(4) == 10000;
  }

  /**
   * For years up to 9999, sorting identifiers as strings sorts releases by
   * time, and different times give different identifiers: what cleanup
   * relies on when it keeps the last entries of a `sort`ed listing.
   */
  lemma FormatOrder(a: Timestamp, b: Timestamp)
    requires Valid(a) && Valid(b) && a.year <= 9999 && b.year <= 9999
    ensures LexLess(Format(a), Format(b)) <==> Earlier(a, b)
    ensures Format(a) == Format(b) <==> a == b
  {
    assert Pow10(2) == 100 && Pow10(4) == 10000;
    var y1, y2 := Decimal(a.year, 4), Decimal(b.year, 4);
    DecimalLength(a.year, 4);
    DecimalLength(b.year, 4);
    DecimalOrder(a.year, b.year, 4);
    assert y1 + Decimal(a.month, 2) == Decimal(a.year, 4) + Decimal(a.month, 2);
    FieldStep(y1, y2, a.month, b.month, 2);
    var m1, m2 := y1 + Decimal(a.month, 2), y2 + Decimal(b.month, 2);
    DecimalLength(a.month, 2);
    DecimalLength(b.month, 2);
    FieldStep(m1, m2, a.day, b.day, 2);
    var d1, d2 := m1 + Decimal(a.day, 2), m2 + Decimal(b.day, 2);
    DecimalLength(a.day, 2);
    DecimalLength(b.day, 2);
    FieldStep(d1, d2, a.hour, b.hour, 2);
    var h1, h2 := d1 + Decimal(a.hour, 2), d2 + Decimal(b.hour, 2);
    DecimalLength(a.hour, 2);
    DecimalLength(b.hour, 2);
    FieldStep(h1, h2, a.minute, b.minute, 2);
    var i1, i2 := h1 + Decimal(a.minute, 2), h2 + Decimal(b.minute, 2);
    DecimalLength(a.minute, 2);
    DecimalLength(b.minute, 2);
    FieldStep(i1, i2, a.second, b.second, 2);
    assert Format(a) == i1 + Decimal(a.second, 2);
    assert Format(b) == i2 + Decimal(b.second, 2);
  }

  /** A four-digit year splits into its century and the year within it. */
  lemma YearDigits(y: nat)
    requires y < 10000
    ensures Decimal(y, 4) == Decimal(y / 100, 2) + Decimal(y % 100, 2)
  {
    assert y / 10 / 10 == y / 100;
    assert y % 100 / 10 == y / 10 % 10 && y % 100 % 10 == y % 10;
    assert Decimal(y / 10, 3) == Decimal(y / 100, 2) + [Digit(y / 10 % 10)];
    assert Decimal(y % 100, 2) == Decimal(y % 100 / 10, 1) + [Digit(y % 10)];
    assert Decimal(y % 100 / 10, 1) == [Digit(y / 10 % 10)];
  }

  /**
   * Cleanup only looks at entries named `20*`: for years up to 9999 these
   * are the releases made in the years 2000 to 2099.
   */
  lemma CleanupPattern(t: Timestamp)
    requires Valid(t) && t.year <= 9999
    ensures StartsWith(Format(t), "20") <==> 2000 <= t.year <= 2099
  {
    assert Pow10(2) == 100;
    var c := Decimal(t.year / 100, 2);
    YearDigits(t.year);
    DecimalLength(t.year / 100, 2);
    assert Format(t)[..2] == c;
    DecimalOrder(t.year / 100, 20, 2);
    assert Decimal(20, 2) == "20";
  }
}
