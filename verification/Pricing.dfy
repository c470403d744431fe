/** Prices as text and as integer micro-units of currency. */
module Pricing {
  import opened Wrappers
  import opened Tariffs

  predicate Digits(s: string) { forall i :: 0 <= i < |s| ==> '0' <= s[i] <= '9' }

  function Value(s: string): nat
    requires Digits(s)
  {
    if s == [] then 0 else Value(s[..|s| - 1]) * 10 + (s[|s| - 1] - '0') as int
  }

  function Pow10(n: nat): nat { if n == 0 then 1 else 10 * Pow10(n - 1) }

  /** Position of the first dot, or the length when there is none. */
  function Dot(s: string): nat { if s == [] || s[0] == '.' then 0 else 1 + Dot(s[1..]) }

  datatype PriceError = Malformed | Overflow | OutOfRange

  const MAX_WHOLE := 1_000_000

  lemma {:induction false} DotBounds(s: string)
    ensures Dot(s) <= |s|
    ensures Dot(s) < |s| ==> s[Dot(s)] == '.'
  {
    if s != [] && s[0] != '.' { DotBounds(s[1..]); }
  }

  function Whole(s: string): string { if Dot(s) <= |s| then s[..Dot(s)] else s }

  function Fraction(s: string): string { if Dot(s) < |s| then s[Dot(s) + 1..] else "" }

  function ParsePrice(price: string): Result<nat, PriceError> {
    var whole, fraction := Whole(price), Fraction(price);
    if !(whole != "" && Digits(whole) && |fraction| <= 6 && Digits(fraction)) then Err(Malformed)
    else if Value(whole) > I64_MAX then Err(Overflow)
    else if Value(whole) > MAX_WHOLE then Err(OutOfRange)
    else Ok(Value(whole) * 1_000_000 + Value(fraction) * Pow10(6 - |fraction|))
  }

  /** w and f are the digits before and after an optional dot, at most six after it. */
  ghost predicate Decimal(price: string, w: string, f: string) {
    && w != "" && Digits(w) && Digits(f) && |f| <= 6
    && (price == w + "." + f || (price == w && f == ""))
  }

  lemma {:induction false} DotAfterDigits(w: string, rest: string)
    requires Digits(w) && (rest == "" || rest[0] == '.')
    ensures Dot(w + rest) == |w|
  {
    if w == "" {
      assert w + rest == rest;
    } else {
      assert (w + rest)[1..] == w[1..] + rest;
      assert (w + rest)[0] == w[0];
      DotAfterDigits(w[1..], rest);
    }
  }

  lemma {:induction false} ValueConcat(w: string, f: string)
    requires Digits(w) && Digits(f)
    ensures Digits(w + f) && Value(w + f) == Value(w) * Pow10(|f|) + Value(f)
  {
    if f == "" {
      assert w + f == w;
    } else {
      var g, c := f[..|f| - 1], f[|f| - 1];
      ValueConcat(w, g);
      assert w + f == (w + g) + [c];
      TenTimes(Value(w), Pow10(|g|), Pow10(|f|));
    }
  }

  lemma TenTimes(v: int, p: int, q: int)
    requires q == 10 * p
    ensures v * q == (v * p) * 10
  {}

  lemma {:induction false} Pow10Add(a: nat, b: nat)
    ensures Pow10(a) * Pow10(b) == Pow10(a + b)
  {
    if a == 0 {
    } else {
      Pow10Add(a - 1, b);
    }
  }

  lemma SplitsDecimal(price: string, w: string, f: string)
    requires Decimal(price, w, f)
    ensures Whole(price) == w && Fraction(price) == f
  {
    if price == w + "." + f {
      DotAfterDigits(w, "." + f);
      assert price == w + ("." + f);
    } else {
      DotAfterDigits(w, "");
      assert price == w + "";
    }
  }

  /** The exact decimal value of w.f in micro-units: all digits read as one number, scaled by the missing decimals. */
  lemma ExactValue(w: string, f: string)
    requires Digits(w) && Digits(f) && |f| <= 6
    ensures Digits(w + f) && Value(w) * 1_000_000 + Value(f) * Pow10(6 - |f|) == Value(w + f) * Pow10(6 - |f|)
  {
    ValueConcat(w, f);
    Pow10Add(|f|, 6 - |f|);
    assert Pow10(6) == 1_000_000;
    Regroup(Value(w), Pow10(|f|), Pow10(6 - |f|), Value(f), 1_000_000);
  }

  lemma Regroup(a: int, b: int, c: int, g: int, m: int)
    requires b * c == m
    ensures (a * b + g) * c == a * m + g * c
  {
    assert a * b * c == a * (b * c);
  }

  /**
   * parse_price accepts exactly the decimals with at most six places and a whole part of at most a million,
   * whatever their length, and returns their exact value times a million.
   */
  lemma ParsesExactDecimals(price: string, v: nat)
    ensures ParsePrice(price) == Ok(v) <==> exists w, f :: Denotes(price, w, f, v)
  {
    if ParsePrice(price) == Ok(v) { ParsedDenotes(price); }
    forall w, f | Denotes(price, w, f, v)
      ensures ParsePrice(price) == Ok(v)
    {
      DenotedParses(price, w, f, v);
    }
  }

  /** The decimal w.f of price is worth exactly v millionths, with a whole part in range. */
  ghost predicate Denotes(price: string, w: string, f: string, v: nat) {
    Decimal(price, w, f) && Value(w) <= MAX_WHOLE && Digits(w + f) && v == Value(w + f) * Pow10(6 - |f|)
  }

  lemma ParsedDenotes(price: string)
    requires ParsePrice(price).Ok?
    ensures Denotes(price, Whole(price), Fraction(price), ParsePrice(price).value)
  {
    DotBounds(price);
    if Dot(price) < |price| {
      assert price == price[..Dot(price)] + "." + price[Dot(price) + 1..];
    }
    ExactValue(Whole(price), Fraction(price));
  }

  lemma DenotedParses(price: string, w: string, f: string, v: nat)
    requires Denotes(price, w, f, v)
    ensures ParsePrice(price) == Ok(v)
  {
    SplitsDecimal(price, w, f);
    ExactValue(w, f);
  }

  /** Leading zeros, however many, change nothing. */
  lemma LeadingZeros(zeros: string, price: string)
    requires forall i :: 0 <= i < |zeros| ==> zeros[i] == '0'
    requires ParsePrice(price).Ok?
    ensures ParsePrice(zeros + price) == ParsePrice(price)
  {
    var w, f, v := Whole(price), Fraction(price), ParsePrice(price).value;
    ParsedDenotes(price);
    DenotesWithZeros(zeros, price, w, f, v);
    DenotedParses(zeros + price, zeros + w, f, v);
  }

  lemma DenotesWithZeros(zeros: string, price: string, w: string, f: string, v: nat)
    requires forall i :: 0 <= i < |zeros| ==> zeros[i] == '0'
    requires Denotes(price, w, f, v)
    ensures Denotes(zeros + price, zeros + w, f, v)
  {
    ZerosHaveNoValue(zeros);
    ZerosAdd(zeros, w);
    ZerosAdd(zeros, w + f);
    assert (zeros + w) + f == zeros + (w + f);
  }

  lemma ZerosAdd(zeros: string, s: string)
    requires Digits(zeros) && Value(zeros) == 0 && Digits(s)
    ensures Digits(zeros + s) && Value(zeros + s) == Value(s)
  {
    ValueConcat(zeros, s);
  }

  lemma {:induction false} ZerosHaveNoValue(zeros: string)
    requires forall i :: 0 <= i < |zeros| ==> zeros[i] == '0'
    ensures Digits(zeros) && Value(zeros) == 0
  {
    if zeros == "" {
    } else {
      ZerosHaveNoValue(zeros[..|zeros| - 1]);
    }
  }

  // ---------------------------------------------------------------- formatting

  function DigitChar(d: nat): char
    requires d < 10
  {
    '0' + d as char
  }

  /** `{}` of a non-negative integer. */
  function ShowNat(n: nat): string {
    if n < 10 then [DigitChar(n)] else ShowNat(n / 10) + [DigitChar(n % 10)]
  }

  /** `{:0k}` of a non-negative integer below 10^k. */
  function ShowPadded(n: nat, k: nat): string {
    if k == 0 then "" else ShowPadded(n / 10, k - 1) + [DigitChar(n % 10)]
  }

  /** The cost text of a summary bucket. */
  function FormatMicro(micro: nat): string { ShowNat(micro / 1_000_000) + "." + ShowPadded(micro % 1_000_000, 6) }

  lemma {:induction false} ShowNatValue(n: nat)
    ensures ShowNat(n) != "" && Digits(ShowNat(n)) && Value(ShowNat(n)) == n
  {
    if n < 10 {
      assert ShowNat(n)[..0] == "";
    } else {
      ShowNatValue(n / 10);
      assert ShowNat(n)[..|ShowNat(n)| - 1] == ShowNat(n / 10);
    }
  }

  lemma {:induction false} ShowPaddedValue(n: nat, k: nat)
    requires n < Pow10(k)
    ensures |ShowPadded(n, k)| == k && Digits(ShowPadded(n, k)) && Value(ShowPadded(n, k)) == n
  {
    if k == 0 {
    } else {
      ShowPaddedValue(n / 10, k - 1);
      assert ShowPadded(n, k)[..k - 1] == ShowPadded(n / 10, k - 1);
    }
  }

  /** Formatting a cost and parsing it back returns the cost, exactly on the range that parsing accepts. */
  lemma FormatRoundTrip(micro: nat)
    ensures ParsePrice(FormatMicro(micro)) == Ok(micro) <==> micro < (MAX_WHOLE + 1) * 1_000_000
    ensures micro >= (MAX_WHOLE + 1) * 1_000_000 ==> ParsePrice(FormatMicro(micro)).Err?
  {
    var w, f := ShowNat(micro / 1_000_000), ShowPadded(micro % 1_000_000, 6);
    ShowNatValue(micro / 1_000_000);
    assert Pow10(6) == 1_000_000;
    ShowPaddedValue(micro % 1_000_000, 6);
    SplitsDecimal(FormatMicro(micro), w, f);
  }

  /**
   * A parsed price is refused by set_tariff exactly when it exceeds a million: whole part a million and a non-zero
   * fraction.
   */
  lemma ParsedPriceStorable(price: string)
    requires ParsePrice(price).Ok?
    ensures ParsePrice(price).value > MAX_RATE <==> Value(Whole(price)) == MAX_WHOLE && Value(Fraction(price)) > 0
  {
    var f, scale := Fraction(price), Pow10(6 - |Fraction(price)|);
    FractionBelowOne(f, 6);
    assert Value(f) > 0 ==> Value(f) * scale > 0 by { PowPositive(6 - |f|); }
  }

  /** One millionth above a million parses, and is above what set_tariff stores. */
  lemma MillionAndAMillionth()
    ensures ParsePrice("1000000.000001") == Ok(1_000_000_000_001) && MAX_RATE < 1_000_000_000_001
  {
    var w, f := "1" + "000000", "00000" + "1";
    assert Pow10(6) == 1_000_000;
    OneThenZeros("000000");
    ZerosHaveNoValue("00000");
    assert "1000000.000001" == w + "." + f;
    ExactValue(w, f);
    DenotedParses("1000000.000001", w, f, 1_000_000_000_001);
  }

  lemma OneThenZeros(zeros: string)
    requires forall i :: 0 <= i < |zeros| ==> zeros[i] == '0'
    ensures Digits("1" + zeros) && Value("1" + zeros) == Pow10(|zeros|)
  {
    ZerosHaveNoValue(zeros);
    ValueConcat("1", zeros);
    assert "1"[..0] == "";
  }

  lemma {:induction false} PowPositive(n: nat)
    ensures Pow10(n) > 0
  {
    if n == 0 {
    } else {
      PowPositive(n - 1);
    }
  }

  lemma {:induction false} ValueBelow(s: string)
    requires Digits(s)
    ensures Value(s) < Pow10(|s|)
  {
    if s == "" {
    } else {
      ValueBelow(s[..|s| - 1]);
    }
  }

  lemma ScaleStrictly(a: int, b: int, c: int)
    requires a < b && c > 0
    ensures a * c < b * c
  {}

  lemma FractionBelowOne(f: string, k: nat)
    requires Digits(f) && |f| <= k
    ensures Value(f) * Pow10(k - |f|) < Pow10(k)
  {
    ValueBelow(f);
    PowPositive(k - |f|);
    Pow10Add(|f|, k - |f|);
    ScaleStrictly(Value(f), Pow10(|f|), Pow10(k - |f|));
  }
}
