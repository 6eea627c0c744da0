/** Decimal amounts: `format(amount, "f")` and the `numeric(12, 2)` column. */
module Amount {
  import opened Wrappers
  import opened Text

  /** A finite Python `Decimal`: sign, coefficient, exponent. The sign of zero is kept. */
  datatype Decimal = Decimal(negative: bool, coefficient: nat, exponent: int)

  /** The integer and fraction digits of `format(d, "f")`. */
  function Parts(d: Decimal): (string, string) {
    var digits := NatText(d.coefficient);
    var exponent := if d.coefficient == 0 && d.exponent > 0 then 0 else d.exponent;
    var point := exponent + |digits|;
    if point < 0 then ("0", Zeros(-point) + digits)
    else if point > |digits| then (digits + Zeros(point - |digits|), "")
    else (if point == 0 then "0" else digits[..point], digits[point..])
  }

  /** `format(d, "f")`. */
  function FixedText(d: Decimal): string {
    var (whole, fraction) := Parts(d);
    (if d.negative then "-" else "") + whole + (if fraction == "" then "" else "." + fraction)
  }

  // ---- what the text means ------------------------------------------------------

  /** The number `unscaled / 10^scale`, with an explicit sign. */
  datatype Fixed = Fixed(negative: bool, unscaled: nat, scale: nat)

  /** A reader of fixed-point text: sign, digits, and an optional fraction. */
  function ParseFixed(text: string): Option<Fixed> {
    if text != [] && text[0] == '-' then ParseUnsigned(true, text[1..]) else ParseUnsigned(false, text)
  }

  function ParseUnsigned(negative: bool, s: string): Option<Fixed> {
    var n := DigitRun(s);
    if n == 0 then None
    else if n == |s| then
      assert s[..n] == s;
      Some(Fixed(negative, ReadNat(s), 0))
    else
      var fraction := s[n + 1..];
      var m := DigitRun(fraction);
      if s[n] == '.' && m > 0 && m == |fraction| then
        assert fraction[..m] == fraction;
        Some(Fixed(negative, ReadNat(s[..n] + fraction), m))
      else None
  }

  function Unscaled(d: Decimal): nat {
    if d.exponent > 0 then d.coefficient * Pow10(d.exponent) else d.coefficient
  }

  function Scale(d: Decimal): nat {
    if d.exponent < 0 then -d.exponent else 0
  }

  function Signed(negative: bool, magnitude: real): real {
    if negative then -magnitude else magnitude
  }

  /** The number a `Decimal` denotes. */
  function DecimalValue(d: Decimal): real {
    Signed(d.negative,
           if d.exponent >= 0 then (d.coefficient * Pow10(d.exponent)) as real
           else d.coefficient as real / Pow10(-d.exponent) as real)
  }

  function FixedValue(f: Fixed): real {
    Signed(f.negative, f.unscaled as real / Pow10(f.scale) as real)
  }

  lemma PartsMeaning(d: Decimal)
    ensures var (whole, fraction) := Parts(d);
            && AllDigits(whole) && AllDigits(fraction) && |whole| > 0
            && |fraction| == Scale(d)
            && ReadNat(whole + fraction) == Unscaled(d)
  {
    var digits := NatText(d.coefficient);
    var (whole, fraction) := Parts(d);
    ReadNatText(d.coefficient);
    if d.exponent + |digits| < 0 {
      var k := -(d.exponent + |digits|);
      assert whole + fraction == Zeros(k + 1) + digits;
      ReadNatLeadingZeros(k + 1, digits);
    } else if d.exponent > 0 {
      if d.coefficient == 0 {
        assert whole + fraction == digits;
      } else {
        assert whole + fraction == digits + Zeros(d.exponent);
        ReadNatTrailingZeros(digits, d.exponent);
      }
    } else if d.exponent + |digits| == 0 {
      assert whole + fraction == Zeros(1) + digits;
      ReadNatLeadingZeros(1, digits);
    } else {
      assert whole + fraction == digits;
    }
  }

  lemma ParseParts(negative: bool, whole: string, fraction: string)
    requires AllDigits(whole) && AllDigits(fraction) && |whole| > 0
    ensures ParseUnsigned(negative, whole + (if fraction == "" then "" else "." + fraction))
         == Some(Fixed(negative, ReadNat(whole + fraction), |fraction|))
  {
    var rest := if fraction == "" then "" else "." + fraction;
    var s := whole + rest;
    DigitRunOf(whole, rest);
    if fraction == "" {
      assert s == whole;
      assert whole + fraction == whole;
    } else {
      DigitRunOf(fraction, "");
      assert fraction + "" == fraction;
      assert s[|whole| + 1..] == fraction;
    }
  }

  lemma SignedText(d: Decimal, body: string)
    requires var (whole, fraction) := Parts(d);
             && body == whole + (if fraction == "" then "" else "." + fraction)
             && body != "" && body[0] != '-'
    ensures FixedText(d) == (if d.negative then "-" else "") + body
    ensures ParseFixed(FixedText(d)) == ParseUnsigned(d.negative, body)
  {
    if d.negative {
      assert FixedText(d) == "-" + body;
      assert FixedText(d)[1..] == body;
    } else {
      assert FixedText(d) == body;
    }
  }

  lemma ParseFixedText(d: Decimal)
    ensures ParseFixed(FixedText(d)) == Some(Fixed(d.negative, Unscaled(d), Scale(d)))
  {
    var (whole, fraction) := Parts(d);
    var body := whole + (if fraction == "" then "" else "." + fraction);
    PartsMeaning(d);
    ParseParts(d.negative, whole, fraction);
    assert body[0] == whole[0] != '-';
    SignedText(d, body);
  }

  lemma FixedDenotes(d: Decimal)
    ensures FixedValue(Fixed(d.negative, Unscaled(d), Scale(d))) == DecimalValue(d)
  {
    assert Pow10(0) == 1;
  }

  /** Parsing the fixed-point text gives back sign, digits and scale, and the same number. */
  lemma FixedRoundTrip(d: Decimal)
    ensures ParseFixed(FixedText(d)) == Some(Fixed(d.negative, Unscaled(d), Scale(d)))
    ensures FixedValue(ParseFixed(FixedText(d)).value) == DecimalValue(d)
  {
    ParseFixedText(d);
    FixedDenotes(d);
  }

  // ---- when two amounts have one text -----------------------------------------------

  lemma NatTextTimesTen(m: nat)
    requires m > 0
    ensures NatText(10 * m) == NatText(m) + "0"
  {
    assert 10 * m / 10 == m && 10 * m % 10 == 0;
  }

  lemma {:induction false} NatTextTimesPow10(n: nat, k: nat)
    requires n > 0
    ensures NatText(n * Pow10(k)) == NatText(n) + Zeros(k)
  {
    if k == 0 {
      assert NatText(n) + Zeros(0) == NatText(n);
    } else {
      var p := Pow10(k - 1);
      var m := n * p;
      assert m > 0 && n * (10 * p) == 10 * m;
      NatTextTimesTen(m);
      NatTextTimesPow10(n, k - 1);
      assert NatText(n) + Zeros(k) == NatText(n) + Zeros(k - 1) + "0";
    }
  }

  /** The text depends on sign, unscaled digits and scale only. */
  lemma TextOfNormal(d: Decimal)
    ensures FixedText(d) == FixedText(Decimal(d.negative, Unscaled(d), 0 - Scale(d)))
  {
    if d.exponent > 0 && d.coefficient > 0 {
      NatTextTimesPow10(d.coefficient, d.exponent);
      var digits := NatText(Unscaled(d));
      assert digits[..|digits|] == digits;
    }
  }

  /** The amount text is equal exactly when sign, unscaled digits and scale are; then the numbers are equal. */
  lemma TextDecidesAmount(a: Decimal, b: Decimal)
    ensures FixedText(a) == FixedText(b) <==>
            a.negative == b.negative && Unscaled(a) == Unscaled(b) && Scale(a) == Scale(b)
    ensures FixedText(a) == FixedText(b) ==> DecimalValue(a) == DecimalValue(b)
  {
    FixedRoundTrip(a);
    FixedRoundTrip(b);
    TextOfNormal(a);
    TextOfNormal(b);
  }

  /** Equal numbers may still have different texts: 1.5 and 1.50. */
  lemma EqualNumbersMayDifferInText()
    ensures var a, b := Decimal(false, 15, -1), Decimal(false, 150, -2);
            DecimalValue(a) == DecimalValue(b) && FixedText(a) != FixedText(b)
  {
    var a, b := Decimal(false, 15, -1), Decimal(false, 150, -2);
    TextDecidesAmount(a, b);
    assert Pow10(1) == 10 && Pow10(2) == 100;
  }

  // ---- the numeric(12, 2) column -------------------------------------------------------

  /** The hundredths a `numeric(12, 2)` column keeps: rounded half away from zero, no negative zero. */
  function StoredCents(d: Decimal): int {
    var magnitude :=
      if Scale(d) <= 2 then Unscaled(d) * Pow10(2 - Scale(d))
      else (Unscaled(d) + 5 * Pow10(Scale(d) - 3)) / Pow10(Scale(d) - 2);
    if d.negative then -magnitude else magnitude
  }

  /** A column value read back as a `Decimal`, which always has two places. */
  function CentsText(cents: int): string {
    FixedText(Decimal(cents < 0, if cents < 0 then -cents else cents, -2))
  }

  /** What the column shows is the number it keeps, with exactly two places. */
  lemma CentsShown(cents: int)
    ensures ParseFixed(CentsText(cents)) == Some(Fixed(cents < 0, if cents < 0 then -cents else cents, 2))
    ensures FixedValue(Fixed(cents < 0, if cents < 0 then -cents else cents, 2)) == cents as real / 100.0
  {
    TwoPlaces(Decimal(cents < 0, if cents < 0 then -cents else cents, -2));
    Hundredths(cents);
  }

  lemma TwoPlaces(d: Decimal)
    requires d.exponent == -2
    ensures ParseFixed(FixedText(d)) == Some(Fixed(d.negative, d.coefficient, 2))
  {
    ParseFixedText(d);
  }

  lemma Hundredths(cents: int)
    ensures FixedValue(Fixed(cents < 0, if cents < 0 then -cents else cents, 2)) == cents as real / 100.0
  {
    assert Pow10(1) == 10 && Pow10(2) == 100;
  }

  /** With at most two places, as the request model demands, the column keeps the number exactly. */
  lemma StoredExactly(d: Decimal)
    requires Scale(d) <= 2
    ensures StoredCents(d) as real / 100.0 == DecimalValue(d)
  {
    assert Pow10(0) == 1 && Pow10(1) == 10 && Pow10(2) == 100;
  }

  /** With more, it keeps the nearest hundredth; halves go away from zero. */
  lemma StoredNearest(d: Decimal)
    requires Scale(d) > 2
    ensures var p := Pow10(Scale(d) - 2);
            var cents := if d.negative then -StoredCents(d) else StoredCents(d);
            2 * Unscaled(d) - p < 2 * (cents * p) <= 2 * Unscaled(d) + p
  {
    var h := Pow10(Scale(d) - 3);
    Nearest(Unscaled(d), h);
  }

  lemma Nearest(u: nat, h: nat)
    requires h >= 1
    ensures var p := 10 * h;
            2 * u - p < 2 * ((u + 5 * h) / p * p) <= 2 * u + p
  {
    var p := 10 * h;
    var q := (u + 5 * h) / p;
    assert u + 5 * h == q * p + (u + 5 * h) % p;
  }

  /** The fixed-point text has no superfluous digits in front. */
  lemma NoLeadingZero(d: Decimal)
    ensures var (whole, fraction) := Parts(d);
            && FixedText(d)
               == (if d.negative then "-" else "") + whole + (if fraction == "" then "" else "." + fraction)
            && (whole == "0" || (|whole| > 0 && whole[0] != '0'))
  {
    var digits := NatText(d.coefficient);
    if d.coefficient == 0 {
      assert digits == "0";
    } else {
      NatTextLeads(d.coefficient);
    }
  }

  lemma {:induction false} NatTextLeads(n: nat)
    requires n > 0
    ensures NatText(n)[0] != '0'
  {
    if n >= 10 {
      NatTextLeads(n / 10);
    }
  }
}
