/** The money amounts typed on the three screens, read as exact decimals.

    The screens parse amounts with Kotlin's `String.toDoubleOrNull()` and compare the
    `Double` with `> 0` and `% 1000 == 0.0`. This module replaces the `Double` by an exact
    value: a string of ASCII digits with at most one `.` and at least one digit denotes
    `units / 10^scale`, where `units` is the number the digits spell and `scale` counts the
    digits after the dot. */
module Amount {
  import opened Common
  import opened Text

  /** An exact non-negative decimal, `units / 10^scale`. */
  datatype Decimal = Decimal(units: nat, scale: nat)

  function Pow10(k: nat): (p: nat)
    ensures p >= 1
  {
    if k == 0 then 1 else 10 * Pow10(k - 1)
  }

  /** The number a decimal denotes. */
  ghost function Value(d: Decimal): real
  {
    d.units as real / Pow10(d.scale) as real
  }

  /** `it > 0` */
  predicate IsPositive(d: Decimal)
  {
    d.units > 0
  }

  /** `it % m == 0.0`, computed on the digits: the value is a whole multiple of `m`. */
  predicate IsMultipleOf(d: Decimal, m: nat)
    requires m > 0
  {
    d.units % (m * Pow10(d.scale)) == 0
  }

  /** `x` is an integer and a multiple of `m`. */
  ghost predicate IsWholeMultiple(x: real, m: nat)
    requires m > 0
  {
    x == x.Floor as real && x.Floor % m == 0
  }

  lemma PositiveMeansValue(d: Decimal)
    ensures IsPositive(d) <==> Value(d) > 0.0
  {
    var p := Pow10(d.scale) as real;
    assert Value(d) * p == d.units as real;
  }

  lemma MulMonotone(a: int, b: int, q: nat)
    requires a <= b
    ensures a * q <= b * q
  {
    assert b * q - a * q == (b - a) * q;
  }

  /** Euclidean division has one quotient and remainder. */
  lemma DivModUnique(x: int, q: nat, a: int, r: int)
    requires q > 0 && 0 <= r < q && x == a * q + r
    ensures x / q == a && x % q == r
  {
    var a' := x / q;
    var r' := x % q;
    assert x == a' * q + r';
    if a' < a {
      MulMonotone(a' + 1, a, q);
    } else if a < a' {
      MulMonotone(a + 1, a', q);
    }
  }

  /** Casting to `real` commutes with multiplication. */
  lemma CastProduct(a: int, b: int)
    ensures (a * b) as real == a as real * b as real
  {
  }

  /** A decimal denotes the whole number `f` exactly when its units are `f` scaled up. */
  lemma WholeValue(d: Decimal, f: int)
    ensures Value(d) == f as real <==> d.units == f * Pow10(d.scale)
  {
    var p := Pow10(d.scale);
    CastProduct(f, p);
    assert Value(d) * p as real == d.units as real;
  }

  lemma MultipleGivesWholeMultiple(d: Decimal, m: nat)
    requires m > 0 && IsMultipleOf(d, m)
    ensures IsWholeMultiple(Value(d), m)
  {
    var p := Pow10(d.scale);
    var t := d.units / (m * p);
    assert d.units == t * (m * p) + d.units % (m * p);
    assert t * (m * p) == (t * m) * p;
    WholeValue(d, t * m);
    DivModUnique(t * m, m, t, 0);
  }

  lemma WholeMultipleGivesMultiple(d: Decimal, m: nat)
    requires m > 0 && IsWholeMultiple(Value(d), m)
    ensures IsMultipleOf(d, m)
  {
    var p := Pow10(d.scale);
    var f := Value(d).Floor;
    var t := f / m;
    WholeValue(d, f);
    assert f == t * m + f % m;
    assert t * (m * p) == (t * m) * p;
    DivModUnique(d.units, m * p, t, 0);
  }

  /** The digit test `IsMultipleOf` agrees with the value being a whole multiple of `m`. */
  lemma MultipleMeansValue(d: Decimal, m: nat)
    requires m > 0
    ensures IsMultipleOf(d, m) <==> IsWholeMultiple(Value(d), m)
  {
    if IsMultipleOf(d, m) {
      MultipleGivesWholeMultiple(d, m);
    }
    if IsWholeMultiple(Value(d), m) {
      WholeMultipleGivesMultiple(d, m);
    }
  }

  /** A digit of the pattern `^\d*\.?\d*$`. Android's regular expressions are Unicode
      aware, so there `\d` is any code point of category Nd, including those above U+FFFF
      that `isDigit` cannot see; `unicode == false` selects ASCII `0-9`, the digits the
      number parser reads. */
  predicate PatternDigit(c: char, unicode: bool)
  {
    if unicode then IsRegexDigit(c) else IsAsciiDigit(c)
  }

  predicate AllPatternDigits(s: string, unicode: bool)
  {
    if unicode then AllRegexDigits(s) else AllAsciiDigits(s)
  }

  /** The pattern `^\d*\.?\d*$` matched left to right, as a regular-expression engine
      does: digits, at most one dot, more digits. */
  function ScanPattern(s: string, unicode: bool, dotSeen: bool): bool
    decreases |s|
  {
    if |s| == 0 then true
    else if PatternDigit(s[0], unicode) then ScanPattern(s[1..], unicode, dotSeen)
    else if s[0] == '.' && !dotSeen then ScanPattern(s[1..], unicode, true)
    else false
  }

  /** `s` is digits around a dot at position `k`. */
  predicate DottedAt(s: string, k: int, unicode: bool)
  {
    && 0 <= k < |s| && s[k] == '.'
    && AllPatternDigits(s[..k], unicode) && AllPatternDigits(s[k + 1..], unicode)
  }

  /** Digits, or digits around a single dot. */
  predicate Shape(s: string, unicode: bool)
  {
    AllPatternDigits(s, unicode) || exists k :: 0 <= k < |s| && DottedAt(s, k, unicode)
  }

  /** The currency filter's pattern, with `\d` read as Android reads it. */
  predicate CurrencyShape(s: string)
  {
    Shape(s, true)
  }

  /** The strings of ASCII digits and at most one dot: the grammar `Parse` reads. */
  predicate DecimalShape(s: string)
  {
    Shape(s, false)
  }

  lemma AllPatternDigitsCons(s: string, unicode: bool)
    requires |s| > 0
    ensures AllPatternDigits(s, unicode) <==> PatternDigit(s[0], unicode) && AllPatternDigits(s[1..], unicode)
  {
    assert s == [s[0]] + s[1..];
  }

  /** Once the dot is behind it, the pattern accepts exactly a run of digits. */
  lemma {:induction false} ScanAfterDot(s: string, unicode: bool)
    ensures ScanPattern(s, unicode, true) <==> AllPatternDigits(s, unicode)
    decreases |s|
  {
    if |s| > 0 {
      AllPatternDigitsCons(s, unicode);
      ScanAfterDot(s[1..], unicode);
    }
  }

  /** Behind a leading digit, a dot at `k` is a dot at `k - 1` of the rest. */
  lemma DottedShift(s: string, k: int, unicode: bool)
    requires |s| > 0 && PatternDigit(s[0], unicode) && 0 < k < |s|
    ensures DottedAt(s, k, unicode) <==> DottedAt(s[1..], k - 1, unicode)
  {
    AllPatternDigitsCons(s[..k], unicode);
    assert s[..k][1..] == s[1..][..k - 1];
    assert s[k + 1..] == s[1..][k..];
  }

  /** The scan accepts exactly the digit runs and the digit runs around one dot. */
  lemma {:induction false} ScanMatchesShape(s: string, unicode: bool)
    ensures ScanPattern(s, unicode, false) <==> Shape(s, unicode)
    decreases |s|
  {
    if |s| > 0 {
      AllPatternDigitsCons(s, unicode);
      if PatternDigit(s[0], unicode) {
        ScanMatchesShape(s[1..], unicode);
        if exists k :: 0 <= k < |s| && DottedAt(s, k, unicode) {
          var k :| 0 <= k < |s| && DottedAt(s, k, unicode);
          DottedShift(s, k, unicode);
        }
        if exists j :: 0 <= j < |s| - 1 && DottedAt(s[1..], j, unicode) {
          var j :| 0 <= j < |s| - 1 && DottedAt(s[1..], j, unicode);
          DottedShift(s, j + 1, unicode);
        }
      } else {
        ScanAfterDot(s[1..], unicode);
        forall k | 0 < k < |s|
          ensures !DottedAt(s, k, unicode)
        {
          AllPatternDigitsCons(s[..k], unicode);
          assert s[..k][0] == s[0];
        }
        if s[0] == '.' && AllPatternDigits(s[1..], unicode) {
          assert s[..0] == [] && s[0 + 1..] == s[1..];
          assert DottedAt(s, 0, unicode);
        }
        if exists k :: 0 <= k < |s| && DottedAt(s, k, unicode) {
          var k :| 0 <= k < |s| && DottedAt(s, k, unicode);
          assert k == 0 && s[k + 1..] == s[1..];
        }
      }
    }
  }

  /** Both shapes are what the left-to-right pattern match accepts, with the matching
      digit class. */
  lemma CurrencyShapeIsPattern(s: string)
    ensures CurrencyShape(s) <==> ScanPattern(s, true, false)
    ensures DecimalShape(s) <==> ScanPattern(s, false, false)
  {
    ScanMatchesShape(s, true);
    ScanMatchesShape(s, false);
  }

  /** Every string the parser's grammar admits also passes the currency filter. */
  lemma DecimalShapeIsCurrencyShape(s: string)
    ensures DecimalShape(s) ==> CurrencyShape(s)
  {
    if AllAsciiDigits(s) {
      AsciiDigitsAreRegexDigits(s);
    } else if DecimalShape(s) {
      var k :| 0 <= k < |s| && DottedAt(s, k, false);
      AsciiDigitsAreRegexDigits(s[..k]);
      AsciiDigitsAreRegexDigits(s[k + 1..]);
      assert DottedAt(s, k, true);
    }
  }

  /** A non-empty string of decimal digits none of which is ASCII, such as Arabic-Indic
      digits, passes the currency filter but does not parse: the filter's `\d` is
      Unicode-wide, the parser reads ASCII digits only. */
  lemma NonAsciiAmountUnparsed(v: string)
    requires |v| > 0 && forall i :: 0 <= i < |v| ==> IsRegexDigit(v[i]) && !IsAsciiDigit(v[i])
    ensures CurrencyShape(v)
    ensures Parse(v).None?
  {
    assert AllRegexDigits(v);
  }

  /** "1000" in mathematical bold digits, U+1D7CF then U+1D7CE three times: four
      characters here, eight UTF-16 units in Kotlin. It passes the currency filter and
      does not parse. */
  lemma SupplementaryAmountUnparsed()
    ensures CurrencyShape("\U{1D7CF}\U{1D7CE}\U{1D7CE}\U{1D7CE}")
    ensures Parse("\U{1D7CF}\U{1D7CE}\U{1D7CE}\U{1D7CE}").None?
  {
    NonAsciiAmountUnparsed("\U{1D7CF}\U{1D7CE}\U{1D7CE}\U{1D7CE}");
  }

  predicate HasAsciiDigit(s: string)
  {
    exists i :: 0 <= i < |s| && IsAsciiDigit(s[i])
  }

  /** The number a string of ASCII digits spells in base ten. */
  function DigitsValue(s: string): nat
    requires AllAsciiDigits(s)
  {
    if |s| == 0 then 0
    else DigitsValue(s[..|s| - 1]) * 10 + (s[|s| - 1] as int - '0' as int)
  }

  /** Appending a digit to `x` shifted past `y` is shifting `x` one place further. */
  lemma ShiftArithmetic(x: int, p: int, y: int, last: int)
    ensures (x * p + y) * 10 + last == x * (10 * p) + (y * 10 + last)
  {
  }

  lemma {:induction false} DigitsValueAppend(a: string, b: string)
    requires AllAsciiDigits(a) && AllAsciiDigits(b)
    ensures AllAsciiDigits(a + b)
    ensures DigitsValue(a + b) == DigitsValue(a) * Pow10(|b|) + DigitsValue(b)
    decreases |b|
  {
    if |b| > 0 {
      var b' := b[..|b| - 1];
      var last := b[|b| - 1] as int - '0' as int;
      assert (a + b)[..|a + b| - 1] == a + b';
      assert (a + b)[|a + b| - 1] == b[|b| - 1];
      DigitsValueAppend(a, b');
      assert b[..|b| - 1] == b';
      assert DigitsValue(a + b) == DigitsValue(a + b') * 10 + last;
      assert DigitsValue(b) == DigitsValue(b') * 10 + last;
      ShiftArithmetic(DigitsValue(a), Pow10(|b'|), DigitsValue(b'), last);
    } else {
      assert a + b == a;
    }
  }

  /** The position of the first `.` in `s`, if there is one. */
  function FirstDot(s: string): (k: Option<nat>)
    ensures k.None? <==> '.' !in s
    ensures k.Some? ==> k.value < |s| && s[k.value] == '.'
    ensures k.Some? ==> forall i :: 0 <= i < k.value ==> s[i] != '.'
  {
    if |s| == 0 then None
    else if s[0] == '.' then Some(0)
    else match FirstDot(s[1..])
      case None => None
      case Some(j) => Some(j + 1)
  }

  /** Where the first dot is, the decimal shape means ASCII digits on both sides of it. */
  lemma ShapeAtFirstDot(s: string, k: nat)
    requires FirstDot(s) == Some(k)
    ensures DecimalShape(s) <==> DottedAt(s, k, false)
  {
    if exists j :: 0 <= j < |s| && DottedAt(s, j, false) {
      var j :| 0 <= j < |s| && DottedAt(s, j, false);
      DotAfterDigits(s, j);
    }
    assert !IsAsciiDigit(s[k]);
  }

  /** `toDoubleOrNull()` on strings of ASCII digits and dots, made exact: `None` exactly
      when the string has no ASCII digit or is not ASCII digits around at most one dot;
      forms outside that grammar (exponent, sign, whitespace) are `None` here. */
  function Parse(s: string): (r: Option<Decimal>)
    ensures r.Some? <==> DecimalShape(s) && HasAsciiDigit(s)
    ensures r.Some? ==> CurrencyShape(s)
    ensures r.Some? && '.' !in s ==> r.value.scale == 0 && r.value.units == DigitsValue(s)
    ensures r.Some? && '.' in s ==> r.value.scale < |s|
  {
    DecimalShapeIsCurrencyShape(s);
    if !HasAsciiDigit(s) then None
    else match FirstDot(s)
      case None =>
        if AllAsciiDigits(s) then Some(Decimal(DigitsValue(s), 0)) else None
      case Some(k) =>
        ShapeAtFirstDot(s, k);
        if AllAsciiDigits(s[..k]) && AllAsciiDigits(s[k + 1..])
        then Some(Decimal(DigitsValue(s[..k] + s[k + 1..]), |s| - k - 1))
        else None
  }

  lemma DigitsHaveNoDot(s: string)
    requires AllAsciiDigits(s)
    ensures '.' !in s
  {
  }

  /** A dot preceded only by digits is the first dot. */
  lemma {:induction false} DotAfterDigits(s: string, k: nat)
    requires k < |s| && s[k] == '.' && AllAsciiDigits(s[..k])
    ensures FirstDot(s) == Some(k)
  {
    if k > 0 {
      assert IsAsciiDigit(s[..k][0]);
      assert s[1..][..k - 1] == s[..k][1..];
      DotAfterDigits(s[1..], k - 1);
    }
  }

  /** A digit string without a dot denotes the whole number it spells. */
  lemma ParseWhole(a: string)
    requires AllAsciiDigits(a) && |a| > 0
    ensures Parse(a) == Some(Decimal(DigitsValue(a), 0))
    ensures Value(Parse(a).value) == DigitsValue(a) as real
  {
    assert IsAsciiDigit(a[0]);
    DigitsHaveNoDot(a);
  }

  lemma FractionArithmetic(u: int, x: int, y: int, p: nat)
    requires p > 0 && u == x * p + y
    ensures u as real / p as real == x as real + y as real / p as real
  {
    CastProduct(x, p);
  }

  lemma ParseDotted(a: string, b: string)
    requires AllAsciiDigits(a) && AllAsciiDigits(b) && |a| + |b| > 0
    ensures AllAsciiDigits(a + b)
    ensures Parse(a + "." + b) == Some(Decimal(DigitsValue(a + b), |b|))
  {
    var s := a + "." + b;
    assert s[|a|] == '.';
    assert s[..|a|] == a && s[|a| + 1..] == b;
    assert IsAsciiDigit(if |a| > 0 then s[0] else s[|a| + 1]);
    DotAfterDigits(s, |a|);
    assert s[..|a|] + s[|a| + 1..] == a + b;
  }

  /** `a.b` denotes the whole part `a` plus the fraction `b / 10^|b|`. */
  lemma ParseFraction(a: string, b: string)
    requires AllAsciiDigits(a) && AllAsciiDigits(b) && |a| + |b| > 0
    ensures Parse(a + "." + b).Some?
    ensures Value(Parse(a + "." + b).value)
         == DigitsValue(a) as real + DigitsValue(b) as real / Pow10(|b|) as real
  {
    ParseDotted(a, b);
    DigitsValueAppend(a, b);
    var u, p := DigitsValue(a + b), Pow10(|b|);
    var d := Decimal(u, |b|);
    assert Parse(a + "." + b) == Some(d);
    FractionArithmetic(u, DigitsValue(a), DigitsValue(b), p);
    assert Value(d) == u as real / p as real;
  }

  /** Kotlin's `Int.toString()` for a non-negative value: its decimal digits, with no
      leading zero. */
  function DecimalString(n: nat): (r: string)
    ensures AllAsciiDigits(r) && |r| > 0
    ensures |r| > 1 ==> r[0] != '0'
  {
    var last := [('0' as int + n % 10) as char];
    if n < 10 then last else DecimalString(n / 10) + last
  }

  /** The digits of `DecimalString(n)` spell `n`. */
  lemma {:induction false} DecimalStringValue(n: nat)
    ensures DigitsValue(DecimalString(n)) == n
  {
    if n >= 10 {
      DecimalStringValue(n / 10);
      var r := DecimalString(n);
      assert r[..|r| - 1] == DecimalString(n / 10);
    }
  }

  /** A decimal string parses back to exactly the integer it was made from. */
  lemma ParseDecimalString(n: nat)
    ensures Parse(DecimalString(n)) == Some(Decimal(n, 0))
  {
    DecimalStringValue(n);
    ParseWhole(DecimalString(n));
  }
}
