/**
 * `clean_numeric`: keep only the digits and decimal points of a cell and read what is left as
 * a number, or yield nothing. Numbers are held exactly as decimals, not as binary floating point.
 */
module Numeric {
  import opened Wrappers
  import opened Text

  predicate IsDigit(c: char) {
    '0' <= c <= '9'
  }

  /** The characters that survive the pattern `[^\d.]` being replaced by nothing. */
  predicate IsNumberChar(c: char) {
    IsDigit(c) || c == '.'
  }

  predicate OnlyNumberChars(s: string) {
    forall i :: 0 <= i < |s| ==> IsNumberChar(s[i])
  }

  /** `re.sub(r'[^\d.]', '', s)`: the digits and points of `s`, in order. */
  function Filter(s: string): (r: string)
    ensures |r| <= |s|
    ensures OnlyNumberChars(r)
  {
    if s == [] then [] else (if IsNumberChar(s[0]) then [s[0]] else []) + Filter(s[1..])
  }

  function DotCount(s: string): nat {
    if s == [] then 0 else (if s[0] == '.' then 1 else 0) + DotCount(s[1..])
  }

  function DigitCount(s: string): nat {
    if s == [] then 0 else (if IsDigit(s[0]) then 1 else 0) + DigitCount(s[1..])
  }

  /**
   * The strings of digits and points that Python's `float()` accepts: at least one digit and at
   * most one point ("7", "7.", ".5", "007.50"); "." and "1.2.3" are refused.
   */
  predicate WellFormed(t: string) {
    OnlyNumberChars(t) && DotCount(t) <= 1 && DigitCount(t) >= 1
  }

  function Pow10(n: nat): (p: nat)
    ensures p >= 1
  {
    if n == 0 then 1 else 10 * Pow10(n - 1)
  }

  function DigitValue(c: char): nat {
    if IsDigit(c) then c as int - '0' as int else 0
  }

  /** The value of a string of decimal digits; the empty string is worth 0. */
  function DigitsValue(ds: string): nat {
    if ds == [] then 0 else 10 * DigitsValue(ds[..|ds| - 1]) + DigitValue(ds[|ds| - 1])
  }

  /** The position of the first point. */
  function DotIndex(t: string): (k: nat)
    requires DotCount(t) >= 1
    ensures k < |t| && t[k] == '.' && DotCount(t[..k]) == 0
  {
    if t[0] == '.' then 0
    else
      assert t[1..][..DotIndex(t[1..])] == t[..DotIndex(t[1..]) + 1][1..];
      1 + DotIndex(t[1..])
  }

  /**
   * A cleaned number, exactly: `digits / 10^scale` ("1.50" is 150 over 10^2). Python holds the
   * nearest binary float instead; `Value` is the number both stand for.
   */
  datatype Decimal = Decimal(digits: nat, scale: nat)

  function Value(d: Decimal): (v: real)
    ensures v >= 0.0
    ensures v == 0.0 <==> IsZero(d)
  {
    d.digits as real / Pow10(d.scale) as real
  }

  /** Python's truth test on the number: zero is false. */
  predicate IsZero(d: Decimal) {
    d.digits == 0
  }

  /** What `float()` reads from a well-formed string: all its digits, scaled by those after the point. */
  function Parse(t: string): Decimal
    requires WellFormed(t)
  {
    if DotCount(t) == 0 then Decimal(DigitsValue(t), 0)
    else
      var k := DotIndex(t);
      Decimal(DigitsValue(t[..k] + t[k + 1..]), |t| - k - 1)
  }

  /**
   * `clean_numeric(value)`: `None` for the empty string, for a string with nothing left after
   * filtering, and for a filtered string `float()` refuses; otherwise the filtered string's value.
   * It has no error path: every input gets an answer, and since a '-' is filtered out like any
   * other sign, no answer is negative.
   */
  function CleanNumeric(value: string): Option<Decimal> {
    if value == [] then None
    else
      var cleaned := Filter(value);
      if cleaned == [] then None
      else if WellFormed(cleaned) then Some(Parse(cleaned))
      else None
  }

  // ---------------------------------------------------------------------------------------------
  // Filtering

  lemma {:induction false} FilterAppend(a: string, b: string)
    ensures Filter(a + b) == Filter(a) + Filter(b)
  {
    if a == [] {
      assert a + b == b;
    } else {
      var head := if IsNumberChar(a[0]) then [a[0]] else [];
      assert (a + b)[0] == a[0] && (a + b)[1..] == a[1..] + b;
      FilterAppend(a[1..], b);
      assert Filter(a + b) == head + (Filter(a[1..]) + Filter(b));
      assert Filter(a) == head + Filter(a[1..]);
    }
  }

  /** Filtering keeps every digit and every point. */
  lemma {:induction false} FilterKeepsCounts(s: string)
    ensures DotCount(Filter(s)) == DotCount(s)
    ensures DigitCount(Filter(s)) == DigitCount(s)
  {
    if s != [] {
      FilterKeepsCounts(s[1..]);
      var head := if IsNumberChar(s[0]) then [s[0]] else [];
      CountsAppend(head, Filter(s[1..]));
    }
  }

  lemma {:induction false} CountsAppend(a: string, b: string)
    ensures DotCount(a + b) == DotCount(a) + DotCount(b)
    ensures DigitCount(a + b) == DigitCount(a) + DigitCount(b)
  {
    if a == [] {
      assert a + b == b;
    } else {
      assert (a + b)[1..] == a[1..] + b;
      CountsAppend(a[1..], b);
    }
  }

  /** A string of digits and points filters to itself. */
  lemma {:induction false} FilterFixesNumberChars(s: string)
    requires OnlyNumberChars(s)
    ensures Filter(s) == s
  {
    if s != [] {
      FilterFixesNumberChars(s[1..]);
    }
  }

  // ---------------------------------------------------------------------------------------------
  // What clean_numeric promises

  /**
   * Cleaning yields a number exactly when the input holds at least one digit and at most one
   * point; the empty input, input with no digit (such as "." or "$,") and input with several
   * points (such as "1.2.3") all yield `None`.
   */
  lemma CleanDefinedIff(value: string)
    ensures CleanNumeric(value).Some? <==> DigitCount(value) >= 1 && DotCount(value) <= 1
  {
    FilterKeepsCounts(value);
    if Filter(value) == [] {
      assert DigitCount(Filter(value)) == 0;
    }
  }

  /** Cleaning a cleaned string changes nothing: only the digits and points of the input matter. */
  lemma CleanOfFiltered(value: string)
    ensures CleanNumeric(Filter(value)) == CleanNumeric(value)
  {
    FilterFixesNumberChars(Filter(value));
  }

  /** Currency signs, thousands separators, minus signs and any other noise do not change the result. */
  lemma CleanIgnoresNoise(before: string, c: char, after: string)
    requires !IsNumberChar(c)
    ensures CleanNumeric(before + [c] + after) == CleanNumeric(before + after)
  {
    FilterAppend(before + [c], after);
    FilterAppend(before, [c]);
    FilterAppend(before, after);
    assert Filter([c]) == [] by { assert [c][1..] == []; }
    assert Filter(before + [c] + after) == Filter(before + after);
    CleanOfFiltered(before + [c] + after);
    CleanOfFiltered(before + after);
  }

  // ---------------------------------------------------------------------------------------------
  // Writing a number and cleaning it again

  function DigitChar(d: nat): (c: char)
    requires d < 10
    ensures IsDigit(c) && DigitValue(c) == d
  {
    ('0' as int + d) as char
  }

  /** The shortest decimal numeral of `n`. */
  function Numeral(n: nat): (r: string)
    ensures r != [] && forall i :: 0 <= i < |r| ==> IsDigit(r[i])
    ensures DigitsValue(r) == n
  {
    if n < 10 then [DigitChar(n)]
    else
      var r := Numeral(n / 10) + [DigitChar(n % 10)];
      assert r[..|r| - 1] == Numeral(n / 10);
      r
  }

  /** The numeral of `m / 10^scale` with exactly `scale` digits after the point ("1.50" for 150 and 2). */
  function Show(m: nat, scale: nat): string {
    if scale == 0 then Numeral(m)
    else
      var ds := ZFill(Numeral(m), scale + 1);
      ds[..|ds| - scale] + "." + ds[|ds| - scale..]
  }

  lemma {:induction false} DigitsValueAppend(a: string, b: string)
    ensures DigitsValue(a + b) == DigitsValue(a) * Pow10(|b|) + DigitsValue(b)
  {
    if b == [] {
      assert a + b == a;
    } else {
      var b' := b[..|b| - 1];
      assert (a + b)[..|a + b| - 1] == a + b';
      DigitsValueAppend(a, b');
      ShiftDigit(DigitsValue(a), Pow10(|b'|), DigitsValue(b'), DigitValue(b[|b| - 1]));
    }
  }

  /** Appending one digit: (x * p + y) shifted by one place and plus d. */
  lemma ShiftDigit(x: int, p: int, y: int, d: int)
    ensures 10 * (x * p + y) + d == x * (10 * p) + (10 * y + d)
  {
  }

  lemma {:induction false} ZerosWorthNothing(n: nat)
    ensures DigitsValue(Zeros(n)) == 0
  {
    if n > 0 {
      assert Zeros(n)[..n - 1] == Zeros(n - 1);
      ZerosWorthNothing(n - 1);
    }
  }

  /** Left-padding a numeral with zeros keeps its value. */
  lemma ZeroPadKeepsValue(n: nat, ds: string)
    ensures DigitsValue(Zeros(n) + ds) == DigitsValue(ds)
  {
    DigitsValueAppend(Zeros(n), ds);
    ZerosWorthNothing(n);
  }

  lemma DotFree(s: string)
    requires forall i :: 0 <= i < |s| ==> IsDigit(s[i])
    ensures DotCount(s) == 0 && DigitCount(s) == |s|
  {
    if s != [] {
      DotFree(s[1..]);
    }
  }

  /** A well-formed string is its own filtered form, so cleaning it yields its value. */
  lemma CleanWellFormed(t: string)
    requires WellFormed(t)
    ensures CleanNumeric(t) == Some(Parse(t))
  {
    FilterFixesNumberChars(t);
  }

  /**
   * A numeral with a point in it reads as all its digits over 10^(digits after the point);
   * either side of the point may be empty, as in "7." and ".5", but not both.
   */
  lemma ParseWithPoint(whole: string, frac: string)
    requires whole + frac != []
    requires forall i :: 0 <= i < |whole| ==> IsDigit(whole[i])
    requires forall i :: 0 <= i < |frac| ==> IsDigit(frac[i])
    ensures WellFormed(whole + "." + frac)
    ensures Parse(whole + "." + frac) == Decimal(DigitsValue(whole + frac), |frac|)
  {
    var t := whole + "." + frac;
    DotFree(whole);
    DotFree(frac);
    CountsAppend(whole, ".");
    CountsAppend(whole + ".", frac);
    assert t[..|whole|] == whole && t[|whole| + 1..] == frac;
    DotIndexIs(t, |whole|);
  }

  /** The first point of `t` is at `k` when `t[k]` is a point and none comes before it. */
  lemma {:induction false} DotIndexIs(t: string, k: nat)
    requires k < |t| && t[k] == '.' && DotCount(t[..k]) == 0
    ensures DotCount(t) >= 1 && DotIndex(t) == k
  {
    if k > 0 {
      assert t[..k][0] == t[0];
      assert t[1..][..k - 1] == t[..k][1..];
      DotIndexIs(t[1..], k - 1);
    }
  }

  /**
   * The value read from "whole.frac" is the whole part plus the fraction digits over a power of
   * ten, as for any decimal numeral.
   */
  lemma PointedValue(whole: string, frac: string)
    ensures Value(Decimal(DigitsValue(whole + frac), |frac|))
      == DigitsValue(whole) as real + DigitsValue(frac) as real / Pow10(|frac|) as real
  {
    DigitsValueAppend(whole, frac);
    ScaleDown(DigitsValue(whole + frac), DigitsValue(whole), DigitsValue(frac), Pow10(|frac|));
  }

  /**
   * What `float()` reads: a numeral without a point is worth its digits; one with a point at `k`
   * is worth the digits before it plus the digits after it over ten to their count.
   */
  lemma ParseMeaning(t: string)
    requires WellFormed(t)
    ensures DotCount(t) == 0 ==> Value(Parse(t)) == DigitsValue(t) as real
    ensures DotCount(t) == 1 ==>
      var k := DotIndex(t);
      Value(Parse(t)) == DigitsValue(t[..k]) as real + DigitsValue(t[k + 1..]) as real / Pow10(|t[k + 1..]|) as real
  {
    if DotCount(t) == 0 {
      ParseWithoutPoint(t);
    } else {
      var k := DotIndex(t);
      ParseAtPoint(t, t[..k], t[k + 1..]);
    }
  }

  lemma ParseWithoutPoint(t: string)
    requires WellFormed(t) && DotCount(t) == 0
    ensures Value(Parse(t)) == DigitsValue(t) as real
  {
    assert Parse(t) == Decimal(DigitsValue(t), 0) && Pow10(0) == 1;
  }

  lemma ParseAtPoint(t: string, whole: string, frac: string)
    requires WellFormed(t) && DotCount(t) == 1
    requires whole == t[..DotIndex(t)] && frac == t[DotIndex(t) + 1..]
    ensures Value(Parse(t)) == DigitsValue(whole) as real + DigitsValue(frac) as real / Pow10(|frac|) as real
  {
    ParseSplit(t, whole, frac);
    PointedValue(whole, frac);
  }

  lemma ParseSplit(t: string, whole: string, frac: string)
    requires WellFormed(t) && DotCount(t) == 1
    requires whole == t[..DotIndex(t)] && frac == t[DotIndex(t) + 1..]
    ensures Parse(t) == Decimal(DigitsValue(whole + frac), |frac|)
  {
  }

  lemma DivideShift(x: real, y: real, p: real)
    requires p > 0.0
    ensures (x * p + y) / p == x + y / p
  {
  }

  lemma ScaleDown(m: nat, x: nat, y: nat, p: nat)
    requires p >= 1 && m == x * p + y
    ensures m as real / p as real == x as real + y as real / p as real
  {
    assert m as real == x as real * p as real + y as real;
    DivideShift(x as real, y as real, p as real);
  }

  /** A numeral zero-filled to a width stays a numeral of the same value. */
  lemma ZFillNumeral(num: string, width: nat)
    requires num != [] && forall i :: 0 <= i < |num| ==> IsDigit(num[i])
    ensures var ds := ZFill(num, width);
      && (forall i :: 0 <= i < |ds| ==> IsDigit(ds[i]))
      && DigitsValue(ds) == DigitsValue(num)
  {
    if |num| < width {
      assert ZFill(num, width) == Zeros(width - |num|) + num;
      ZeroPadKeepsValue(width - |num|, num);
    }
  }

  /** Cleaning the numeral `Show(m, scale)` gives back exactly `m` over `10^scale`. */
  lemma ShowRoundTrip(m: nat, scale: nat)
    ensures CleanNumeric(Show(m, scale)) == Some(Decimal(m, scale))
  {
    if scale == 0 {
      NumeralRoundTrip(m);
    } else {
      var ds := ZFill(Numeral(m), scale + 1);
      ZFillNumeral(Numeral(m), scale + 1);
      SplitAtPoint(ds, scale);
      CleanWellFormed(Show(m, scale));
    }
  }

  /** Putting a point `scale` digits from the end of a numeral keeps its digits and sets the scale. */
  lemma SplitAtPoint(ds: string, scale: nat)
    requires scale < |ds| && forall i :: 0 <= i < |ds| ==> IsDigit(ds[i])
    ensures var t := ds[..|ds| - scale] + "." + ds[|ds| - scale..];
      WellFormed(t) && Parse(t) == Decimal(DigitsValue(ds), scale)
  {
    var whole, frac := ds[..|ds| - scale], ds[|ds| - scale..];
    assert whole + frac == ds;
    assert forall i :: 0 <= i < |whole| ==> whole[i] == ds[i];
    assert forall i :: 0 <= i < |frac| ==> frac[i] == ds[|ds| - scale + i];
    ParseWithPoint(whole, frac);
  }

  /** For a plain numeral, cleaning returns its value. */
  lemma NumeralRoundTrip(n: nat)
    ensures CleanNumeric(Numeral(n)) == Some(Decimal(n, 0))
  {
    DotFree(Numeral(n));
    CleanWellFormed(Numeral(n));
  }

  // ---------------------------------------------------------------------------------------------
  // Examples
  //
  // Several examples take their strings as parameters pinned by `requires x == "..."` rather
  // than writing the literals in the `ensures`: the verifier then does not evaluate every
  // function on the literals eagerly, which keeps these proofs small.

  /** A price with a currency sign and a thousands separator cleans like the bare numeral. */
  lemma CurrencyExample(priced: string, bare: string)
    requires priced == "$1,250.00" && bare == "1250.00"
    ensures CleanNumeric(priced) == CleanNumeric(bare)
  {
    DollarNoise(priced, "1,250.00");
    CommaNoise("1,250.00", bare);
  }

  lemma DollarNoise(priced: string, grouped: string)
    requires priced == "$1,250.00" && grouped == "1,250.00"
    ensures CleanNumeric(priced) == CleanNumeric(grouped)
  {
    SignIgnored(priced, '$', grouped);
  }

  lemma CommaNoise(grouped: string, bare: string)
    requires grouped == "1,250.00" && bare == "1250.00"
    ensures CleanNumeric(grouped) == CleanNumeric(bare)
  {
    var head, tail := grouped[..1], grouped[2..];
    assert grouped == head + [','] + tail && head + tail == bare;
    CleanIgnoresNoise(head, ',', tail);
  }

  /** "1250.00" reads as 125000 hundredths, that is 1250. */
  lemma BareExample(bare: string)
    requires bare == "1250.00"
    ensures CleanNumeric(bare) == Some(Decimal(125000, 2))
    ensures Value(Decimal(125000, 2)) == 1250.0
  {
    var whole, frac := bare[..4], bare[5..];
    assert bare == whole + "." + frac;
    ParseWithPoint(whole, frac);
    assert whole + frac == "125000";
    DigitsOfBare("125000");
    CleanWellFormed(bare);
    assert Pow10(2) == 100;
  }

  lemma DigitsOfBare(ds: string)
    requires ds == "125000"
    ensures DigitsValue(ds) == 125000
  {
    assert DigitsValue(ds[..1]) == 1;
    assert DigitsValue(ds[..2]) == 12 by { assert ds[..2][..1] == ds[..1]; }
    assert DigitsValue(ds[..3]) == 125 by { assert ds[..3][..2] == ds[..2]; }
    assert DigitsValue(ds[..4]) == 1250 by { assert ds[..4][..3] == ds[..3]; }
    assert DigitsValue(ds[..5]) == 12500 by { assert ds[..5][..4] == ds[..4]; }
    assert ds[..6] == ds && ds[..6][..5] == ds[..5];
  }

  /** A minus sign is noise like any other: "-5" cleans to 5, so no cleaned number is negative. */
  lemma MinusExample()
    ensures CleanNumeric("-5") == Some(Decimal(5, 0))
    ensures Value(Decimal(5, 0)) == 5.0
  {
    SignIgnored("-5", '-', "5");
    NumeralRoundTrip(5);
    assert Numeral(5) == "5";
  }

  lemma SignIgnored(signed: string, sign: char, digits: string)
    requires !IsNumberChar(sign) && signed == [sign] + digits
    ensures CleanNumeric(signed) == CleanNumeric(digits)
  {
    CleanIgnoresNoise([], sign, digits);
    assert [] + [sign] + digits == signed && [] + digits == digits;
  }

  /** A price written with a currency sign reads as 150 hundredths, that is 1.5. */
  lemma PriceExample()
    ensures CleanNumeric("$1.50") == Some(Decimal(150, 2))
    ensures Value(Decimal(150, 2)) == 1.5
  {
    PriceNoise();
    PlainPriceExample();
    assert Pow10(2) == 100;
  }

  lemma PriceNoise()
    ensures CleanNumeric("$1.50") == CleanNumeric("1.50")
  {
    SignIgnored("$1.50", '$', "1.50");
  }

  lemma PlainPriceExample()
    ensures CleanNumeric("1.50") == Some(Decimal(150, 2))
  {
    ParseWithPoint("1", "50");
    assert "1" + "." + "50" == "1.50";
    assert DigitsValue("1" + "50") == 150 by {
      assert DigitsValue("1") == 1;
      assert DigitsValue("15") == 15 by { assert "15"[..1] == "1"; }
      assert "1" + "50" == "150" && "150"[..2] == "15";
    }
    CleanWellFormed("1.50");
  }

  /** The three ways of yielding `None`. */
  lemma AbsentExamples()
    ensures CleanNumeric("") == None
    ensures CleanNumeric("N/A") == None
    ensures CleanNumeric(".") == None
    ensures CleanNumeric("1.2.3") == None
  {
    CleanDefinedIff("N/A");
    CleanDefinedIff(".");
    CleanDefinedIff("1.2.3");
  }
}
