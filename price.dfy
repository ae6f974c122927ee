/**
 * `clean_price`: drop every character that is not a digit or a dot, then read what is
 * left as an exact decimal, as Python's `Decimal` constructor does for plain literals.
 */
module Price {
  import opened Wrappers

  /** An exact decimal number: `coefficient` scaled down by `scale` decimal places, so
      `Decimal(5177, 2)` is 51.77 and `Decimal(0, 2)` is 0.00 (the scale is kept, as
      Python's `Decimal` keeps the exponent). */
  datatype Decimal = Decimal(coefficient: nat, scale: nat)

  /** Why the decimal constructor refused its argument (Python's `InvalidOperation`). */
  datatype ConversionSyntax = ConversionSyntax(literal: string)

  function Pow10(k: nat): (p: nat)
    ensures p >= 1
  {
    if k == 0 then 1 else 10 * Pow10(k - 1)
  }

  /** The number a decimal stands for. */
  ghost function Value(d: Decimal): real {
    d.coefficient as real / Pow10(d.scale) as real
  }

  predicate IsDigit(c: char) {
    '0' <= c <= '9'
  }

  /** The characters the pattern `[0-9\.]` keeps. */
  predicate IsPriceChar(c: char) {
    IsDigit(c) || c == '.'
  }

  ghost predicate AllPriceChars(s: string) {
    forall i :: 0 <= i < |s| ==> IsPriceChar(s[i])
  }

  ghost predicate AllDigits(s: string) {
    forall i :: 0 <= i < |s| ==> IsDigit(s[i])
  }

  ghost predicate HasDigit(s: string) {
    exists i :: 0 <= i < |s| && IsDigit(s[i])
  }

  /** `re.sub(r'[^0-9\.]', '', s)`: the digits and dots of `s`, in their order. */
  function StripPrice(s: string): (r: string)
    ensures |r| <= |s|
    ensures AllPriceChars(r)
    ensures AllPriceChars(s) ==> r == s
  {
    if s == [] then []
    else
      var rest := StripPrice(s[1..]);
      if IsPriceChar(s[0]) then [s[0]] + rest else rest
  }

  /** Every digit and dot is kept as often as it occurs, and nothing else is. */
  lemma {:induction false} StripPriceCounts(s: string, c: char)
    ensures multiset(StripPrice(s))[c] == if IsPriceChar(c) then multiset(s)[c] else 0
  {
    if s != [] {
      StripPriceCounts(s[1..], c);
      assert s == [s[0]] + s[1..];
      assert multiset(s) == multiset([s[0]]) + multiset(s[1..]);
      if IsPriceChar(s[0]) {
        assert multiset(StripPrice(s)) == multiset([s[0]]) + multiset(StripPrice(s[1..]));
      }
    }
  }

  /** Stripping distributes over concatenation, so the kept characters keep their order. */
  lemma {:induction false} StripPriceAppend(a: string, b: string)
    ensures StripPrice(a + b) == StripPrice(a) + StripPrice(b)
  {
    if a == [] {
      assert a + b == b;
    } else {
      assert (a + b)[1..] == a[1..] + b;
      StripPriceAppend(a[1..], b);
    }
  }

  /** Stripping twice is stripping once. */
  lemma StripPriceIdempotent(s: string)
    ensures StripPrice(StripPrice(s)) == StripPrice(s)
  {
  }

  function DigitValue(c: char): nat {
    if IsDigit(c) then (c - '0') as nat else 0
  }

  /** Value of a digit string, most significant digit first. */
  function DigitsValue(s: string): nat {
    if s == [] then 0 else 10 * DigitsValue(s[..|s| - 1]) + DigitValue(s[|s| - 1])
  }

  /** Index of the first dot, or `|s|` when there is none. */
  function IndexOfDot(s: string): (k: nat)
    ensures k <= |s|
    ensures k < |s| ==> s[k] == '.'
    ensures forall i :: 0 <= i < k ==> s[i] != '.'
  {
    if s == [] then 0
    else if s[0] == '.' then 0
    else 1 + IndexOfDot(s[1..])
  }

  /**
   * `Decimal(s)` for a string of digits and dots: an integer part, an optional dot and a
   * fraction part, with at least one digit among them. The scale is the number of fraction
   * digits, as in `Decimal("51.77")` having exponent -2 and `Decimal("5.")` exponent 0.
   */
  function ParseDecimal(s: string): (r: Result<Decimal, ConversionSyntax>)
    requires AllPriceChars(s)
    ensures r.Ok? ==> r.value.scale < |s|
    ensures r.Err? ==> r.error == ConversionSyntax(s)
  {
    var k := IndexOfDot(s);
    if k == |s| then
      if s == [] then Err(ConversionSyntax(s)) else Ok(Decimal(DigitsValue(s), 0))
    else
      var whole, fraction := s[..k], s[k + 1..];
      if '.' in fraction || |whole| + |fraction| == 0 then Err(ConversionSyntax(s))
      else Ok(Decimal(DigitsValue(whole + fraction), |fraction|))
  }

  /** The decimal constructor accepts a string of digits and dots exactly when it has a digit
      and at most one dot; otherwise it reports the literal. */
  lemma ParseDecimalSucceeds(s: string)
    requires AllPriceChars(s)
    ensures ParseDecimal(s).Ok? <==> HasDigit(s) && multiset(s)['.'] <= 1
    ensures ParseDecimal(s).Err? ==> ParseDecimal(s).error == ConversionSyntax(s)
  {
    var k := IndexOfDot(s);
    if k == |s| {
      NoDotLiteral(s);
    } else {
      DotLiteral(s, k);
    }
  }

  /** A price literal without a dot is all digits, and holds a digit exactly when it is not empty. */
  lemma NoDotLiteral(s: string)
    requires AllPriceChars(s)
    requires IndexOfDot(s) == |s|
    ensures multiset(s)['.'] == 0 && AllDigits(s)
    ensures HasDigit(s) <==> |s| > 0
  {
    assert '.' !in multiset(s);
    if |s| > 0 {
      assert IsDigit(s[0]);
    }
  }

  /** The first dot of a price literal at `k`: the dots after it are the others, and when there
      are none the literal holds a digit exactly when something surrounds the dot. */
  lemma DotLiteral(s: string, k: nat)
    requires AllPriceChars(s)
    requires k == IndexOfDot(s) < |s|
    ensures multiset(s)['.'] == 1 + multiset(s[k + 1..])['.']
    ensures '.' !in s[k + 1..] ==> AllDigits(s[k + 1..]) && (HasDigit(s) <==> k + |s[k + 1..]| > 0)
  {
    var whole, fraction := s[..k], s[k + 1..];
    assert s == whole + [s[k]] + fraction;
    assert '.' !in multiset(whole);
    assert multiset(s) == multiset(whole) + multiset{s[k]} + multiset(fraction);
    if '.' !in fraction {
      assert AllDigits(fraction) by {
        forall i | 0 <= i < |fraction| ensures IsDigit(fraction[i]) {
          assert fraction[i] in fraction;
          assert fraction[i] == s[k + 1 + i];
        }
      }
      if HasDigit(s) {
        var i :| 0 <= i < |s| && IsDigit(s[i]);
        if i > k {
          assert fraction[i - k - 1] == s[i];
        }
      }
      if k > 0 {
        assert IsDigit(s[0]);
      } else if |fraction| > 0 {
        assert IsDigit(s[k + 1]);
      }
    }
  }

  /** Stripping keeps a digit exactly when the text had one, and keeps every dot. */
  lemma StripPriceKeepsDigitsAndDots(s: string)
    ensures HasDigit(StripPrice(s)) <==> HasDigit(s)
    ensures multiset(StripPrice(s))['.'] == multiset(s)['.']
  {
    var r := StripPrice(s);
    StripPriceCounts(s, '.');
    if HasDigit(s) {
      var i :| 0 <= i < |s| && IsDigit(s[i]);
      assert s[i] in multiset(s);
      StripPriceCounts(s, s[i]);
      assert s[i] in multiset(r);
      var j :| 0 <= j < |r| && r[j] == s[i];
    }
    if HasDigit(r) {
      var j :| 0 <= j < |r| && IsDigit(r[j]);
      assert r[j] in multiset(r);
      StripPriceCounts(s, r[j]);
      assert r[j] in multiset(s);
      var i :| 0 <= i < |s| && s[i] == r[j];
    }
  }

  /** `clean_price`: strip, then parse. */
  function CleanPrice(s: string): (r: Result<Decimal, ConversionSyntax>)
    ensures r.Ok? ==> r.value.scale < |s|
  {
    ParseDecimal(StripPrice(s))
  }

  /** `clean_price` succeeds exactly when the text holds at least one digit and at most one
      dot, whatever else surrounds them; a failure names the stripped text. */
  lemma CleanPriceSucceeds(s: string)
    ensures CleanPrice(s).Ok? <==> HasDigit(s) && multiset(s)['.'] <= 1
    ensures CleanPrice(s).Err? ==> CleanPrice(s).error == ConversionSyntax(StripPrice(s))
  {
    StripPriceKeepsDigitsAndDots(s);
    ParseDecimalSucceeds(StripPrice(s));
  }

  lemma ShiftLeft(x: nat, p: nat)
    ensures 10 * (x * p) == x * (10 * p)
  {
  }

  /** `DigitsValue` of a concatenation: the left digits are shifted by the length of the right. */
  lemma {:induction false} DigitsValueAppend(a: string, b: string)
    ensures DigitsValue(a + b) == DigitsValue(a) * Pow10(|b|) + DigitsValue(b)
  {
    if b == [] {
      assert a + b == a;
    } else {
      var b' := b[..|b| - 1];
      var ab := a + b;
      assert ab[..|ab| - 1] == a + b';
      assert ab[|ab| - 1] == b[|b| - 1];
      DigitsValueAppend(a, b');
      var last := DigitValue(b[|b| - 1]);
      calc {
        DigitsValue(ab);
        10 * DigitsValue(a + b') + last;
        10 * (DigitsValue(a) * Pow10(|b'|) + DigitsValue(b')) + last;
        { ShiftLeft(DigitsValue(a), Pow10(|b'|)); }
        DigitsValue(a) * Pow10(|b|) + (10 * DigitsValue(b') + last);
      }
    }
  }

  /** The exact number a price literal denotes: its integer part plus its fraction digits
      over the matching power of ten. */
  ghost function LiteralValue(s: string): real
    requires AllPriceChars(s) && multiset(s)['.'] <= 1
  {
    var k := IndexOfDot(s);
    if k == |s| then
      DigitsValue(s) as real
    else
      DigitsValue(s[..k]) as real + DigitsValue(s[k + 1..]) as real / Pow10(|s| - k - 1) as real
  }

  /** A successful parse keeps the exact value of the literal: no rounding, no float. */
  lemma ParseDecimalExact(s: string)
    requires AllPriceChars(s) && ParseDecimal(s).Ok?
    ensures multiset(s)['.'] <= 1
    ensures Value(ParseDecimal(s).value) == LiteralValue(s)
  {
    assert multiset(s)['.'] <= 1 by {
      ParseDecimalSucceeds(s);
    }
    var k := IndexOfDot(s);
    if k < |s| {
      DottedValue(s[..k], s[k + 1..]);
    }
  }

  /** Reading the digits on both sides of the dot as one number scaled by the fraction
      length is the integer part plus the fraction. */
  lemma DottedValue(whole: string, fraction: string)
    ensures Value(Decimal(DigitsValue(whole + fraction), |fraction|))
      == DigitsValue(whole) as real + DigitsValue(fraction) as real / Pow10(|fraction|) as real
  {
    DigitsValueAppend(whole, fraction);
    ShiftedQuotient(DigitsValue(whole), DigitsValue(fraction), Pow10(|fraction|));
  }

  lemma ShiftedQuotient(w: nat, f: nat, p: nat)
    requires p >= 1
    ensures (w * p + f) as real / p as real == w as real + f as real / p as real
  {
    assert (w * p + f) as real == w as real * p as real + f as real;
  }

  function DigitChar(d: nat): (c: char)
    requires d < 10
    ensures IsDigit(c) && (c - '0') as nat == d
  {
    ('0' as int + d) as char
  }

  /** Decimal digits of `n` without leading zeros (`"0"` for zero). */
  function Digits(n: nat): (s: string)
    ensures |s| >= 1 && AllDigits(s)
  {
    if n < 10 then [DigitChar(n)] else Digits(n / 10) + [DigitChar(n % 10)]
  }

  lemma {:induction false} DigitsValueOfDigits(n: nat)
    ensures DigitsValue(Digits(n)) == n
  {
    if n >= 10 {
      var s := Digits(n);
      assert s[..|s| - 1] == Digits(n / 10);
      DigitsValueOfDigits(n / 10);
    }
  }

  function Zeros(k: nat): (s: string)
    ensures |s| == k && AllDigits(s)
  {
    if k == 0 then [] else Zeros(k - 1) + ['0']
  }

  lemma {:induction false} DigitsValueOfZeros(k: nat)
    ensures DigitsValue(Zeros(k)) == 0
  {
    if k > 0 {
      assert Zeros(k)[..k - 1] == Zeros(k - 1);
      DigitsValueOfZeros(k - 1);
    }
  }

  /** The coefficient padded with leading zeros so that at least one digit stands before
      the dot. */
  function PaddedDigits(d: Decimal): (s: string)
    ensures |s| >= d.scale + 1 && AllDigits(s)
  {
    var ds := Digits(d.coefficient);
    if |ds| <= d.scale then Zeros(d.scale + 1 - |ds|) + ds else ds
  }

  /** The plain notation of a decimal: its digits with a dot before the last `scale` of them,
      `"51.77"` for `Decimal(5177, 2)`, `"0.00"` for `Decimal(0, 2)`, `"7"` for `Decimal(7, 0)`. */
  function PlainLiteral(d: Decimal): (s: string)
    ensures AllPriceChars(s)
  {
    var ds := PaddedDigits(d);
    if d.scale == 0 then ds else ds[..|ds| - d.scale] + "." + ds[|ds| - d.scale..]
  }

  /** Digits, a dot and digits, with something before the dot, parse to the digits read as
      one number scaled by the count after the dot. */
  lemma ParseDotted(whole: string, fraction: string)
    requires AllDigits(whole) && AllDigits(fraction) && |whole| > 0
    ensures AllPriceChars(whole + "." + fraction)
    ensures ParseDecimal(whole + "." + fraction) == Ok(Decimal(DigitsValue(whole + fraction), |fraction|))
  {
    var s := whole + "." + fraction;
    assert forall i :: 0 <= i < |whole| ==> s[i] == whole[i];
    assert s[|whole|] == '.';
    assert IndexOfDot(s) == |whole|;
    assert s[..|whole|] == whole;
    assert s[|whole| + 1..] == fraction;
    assert '.' !in fraction by {
      forall i | 0 <= i < |fraction| ensures fraction[i] != '.' {
        assert IsDigit(fraction[i]);
      }
    }
  }

  /** Zero padding leaves the value of the digits alone. */
  lemma PaddedDigitsValue(d: Decimal)
    ensures DigitsValue(PaddedDigits(d)) == d.coefficient
  {
    DigitsValueOfDigits(d.coefficient);
    if |Digits(d.coefficient)| <= d.scale {
      DigitsValueAppend(Zeros(d.scale + 1 - |Digits(d.coefficient)|), Digits(d.coefficient));
      DigitsValueOfZeros(d.scale + 1 - |Digits(d.coefficient)|);
    }
  }

  /** Parsing the plain notation of a decimal gives back that decimal, scale included. */
  lemma ParsePlainLiteral(d: Decimal)
    ensures ParseDecimal(PlainLiteral(d)) == Ok(d)
  {
    if d.scale == 0 {
      PaddedDigitsValue(d);
      assert IndexOfDot(PaddedDigits(d)) == |PaddedDigits(d)|;
    } else {
      ParseScaledLiteral(d);
    }
  }

  lemma ParseScaledLiteral(d: Decimal)
    requires d.scale > 0
    ensures ParseDecimal(PlainLiteral(d)) == Ok(d)
  {
    var ds := PaddedDigits(d);
    var whole, fraction := ds[..|ds| - d.scale], ds[|ds| - d.scale..];
    ParseDotted(whole, fraction);
    assert whole + fraction == ds;
    PaddedDigitsValue(d);
  }

  /** Text without digits or dots strips to nothing. */
  lemma {:induction false} StripPriceNone(s: string)
    requires forall i :: 0 <= i < |s| ==> !IsPriceChar(s[i])
    ensures StripPrice(s) == []
  {
    if s != [] {
      StripPriceNone(s[1..]);
    }
  }

  /** A currency prefix without digits or dots is dropped entirely: the price is the decimal
      written after it. */
  lemma CleanPricePrefixed(prefix: string, d: Decimal)
    requires forall i :: 0 <= i < |prefix| ==> !IsPriceChar(prefix[i])
    ensures CleanPrice(prefix + PlainLiteral(d)) == Ok(d)
  {
    var literal := PlainLiteral(d);
    StripPriceNone(prefix);
    StripPriceAppend(prefix, literal);
    assert StripPrice(prefix + literal) == literal;
    ParsePlainLiteral(d);
  }

  /** A pound sign in front of a price literal is all that stripping removes. */
  lemma StripPound(literal: string)
    requires AllPriceChars(literal)
    ensures StripPrice("£" + literal) == literal
  {
    StripPriceNone("£");
    StripPriceAppend("£", literal);
  }

  lemma ParseExample()
    ensures ParseDecimal("51.77") == Ok(Decimal(5177, 2))
  {
    ParseDotted("51", "77");
    assert "51" + "." + "77" == "51.77";
    assert "51" + "77" == "5177";
    assert DigitsValue("5177") == 5177 by {
      assert "5177"[..3] == "517" && "517"[..2] == "51" && "51"[..1] == "5" && "5"[..0] == "";
    }
  }

  lemma ParseDefault()
    ensures ParseDecimal("0.00") == Ok(Decimal(0, 2))
  {
    ParseDotted("0", "00");
    assert "0" + "." + "00" == "0.00";
    assert "0" + "00" == "000";
    assert DigitsValue("000") == 0 by {
      assert "000"[..2] == "00" && "00"[..1] == "0" && "0"[..0] == "";
    }
  }

  lemma HundredthsValue(c: nat)
    ensures Value(Decimal(c, 2)) == c as real / 100.0
  {
    assert Pow10(2) == 100;
  }

  /** `clean_price("£51.77")` is exactly 51.77. */
  lemma CleanPriceExample()
    ensures CleanPrice("£51.77") == Ok(Decimal(5177, 2))
    ensures Value(Decimal(5177, 2)) == 51.77
  {
    assert "£51.77" == "£" + "51.77";
    StripPound("51.77");
    ParseExample();
    HundredthsValue(5177);
  }

  /** The default price `"£0.00"` is zero, with two decimal places. */
  lemma CleanPriceDefault()
    ensures CleanPrice("£0.00") == Ok(Decimal(0, 2))
    ensures Value(Decimal(0, 2)) == 0.0
  {
    assert "£0.00" == "£" + "0.00";
    StripPound("0.00");
    ParseDefault();
    HundredthsValue(0);
  }
}
