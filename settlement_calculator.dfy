/**
 * The settlement calculator: a principal and a settlement percentage give
 * the amount that settles the principal.
 */
module SettlementCalculator {
  import opened Results
  import opened TextFilter
  import opened JsNumber
  import opened NumberField

  datatype CalculationResult = CalculationResult(settlementAmount: int)

  datatype FormValues = FormValues(principalAmount: nat, settlementPercentage: Decimal)

  /** The first broken rule of each field, `None` for a field that passes. */
  datatype FormErrors = FormErrors(principalAmount: Option<FieldError>, settlementPercentage: Option<FieldError>)

  /** The percentage field's keystroke filter: `value.replace(/[^0-9.]/g, "")`; several dots may remain. */
  function FilterPercentage(value: string): (r: string)
    ensures forall i :: 0 <= i < |r| ==> IsDigitOrDot(r[i])
    ensures forall c :: c in r <==> c in value && IsDigitOrDot(c)
  {
    Keep(value, IsDigitOrDot)
  }

  /** The filter keeps digits and dots in their order and leaves such a string as it is. */
  lemma FilterPercentageKeepsOrder(a: string, b: string)
    ensures FilterPercentage(a + b) == FilterPercentage(a) + FilterPercentage(b)
    ensures (forall i :: 0 <= i < |a| ==> IsDigitOrDot(a[i])) ==> FilterPercentage(a) == a
    ensures FilterPercentage(FilterPercentage(a)) == FilterPercentage(a)
  {
    KeepAppend(a, b, IsDigitOrDot);
    if forall i :: 0 <= i < |a| ==> IsDigitOrDot(a[i]) {
      KeepAllKept(a, IsDigitOrDot);
    }
    KeepIdempotent(a, IsDigitOrDot);
  }

  /** A second dot is not removed. */
  lemma FilterPercentageExample()
    ensures FilterPercentage("1.2.3") == "1.2.3"
    ensures FilterPercentage("12,5%") == "125"
  {
    FilterPercentageKeepsOrder("1.2.3", "");
    FilterTail();
  }

  lemma FilterTail()
    ensures Keep("12,5%", IsDigitOrDot) == "125"
  {
    assert Keep("%", IsDigitOrDot) == "";
    assert Keep("5%", IsDigitOrDot) == "5";
    assert Keep(",5%", IsDigitOrDot) == "5";
    assert Keep("2,5%", IsDigitOrDot) == "25";
  }

  /** A decimal is in (0, 100] exactly when its digits are positive and at most `100 * 10^scale`. */
  lemma PercentageRange(d: Decimal)
    ensures (d.ToReal() > 0.0 && d.ToReal() <= 100.0) <==> (0 < d.digits <= 100 * Pow10(d.scale))
  {
    var m, q := d.digits as real, Pow10(d.scale) as real;
    RatioAtMost(m, q, 100.0);
    RatioAtMost(m, q, 0.0);
    CastMul(100, Pow10(d.scale));
  }

  /**
   * The percentage schema: `.min(1)`, then `parseFloat` must not be NaN,
   * then the number must lie in (0, 100].
   */
  function ValidatePercentage(val: string): (r: Result<Decimal, FieldError>)
    ensures r == Err(Required) <==> val == ""
    ensures r == Err(Invalid) <==> val != "" && ParseFloat(val).None?
    ensures r.Ok? <==>
      val != "" && ParseFloat(val).Some? &&
      0 < ParseFloat(val).value.digits <= 100 * Pow10(ParseFloat(val).value.scale)
    ensures r.Ok? ==> ParseFloat(val) == Some(r.value) && 0.0 < r.value.ToReal() <= 100.0
  {
    if |val| < 1 then Err(Required)
    else match ParseFloat(val)
      case None => Err(Invalid)
      case Some(d) =>
        PercentageRange(d);
        if d.ToReal() > 0.0 && d.ToReal() <= 100.0 then Ok(d) else Err(OutOfRange)
  }

  /** The rule each boundary value breaks first, and what a second dot does. */
  lemma ValidatePercentageExamples()
    ensures ValidatePercentage("") == Err(Required)
    ensures ValidatePercentage(".") == Err(Invalid)
    ensures ValidatePercentage("0") == Err(OutOfRange)
    ensures ValidatePercentage("100.01") == Err(OutOfRange)
    ensures ValidatePercentage("100") == Ok(Decimal(100, 0))
    ensures ValidatePercentage("1.2.3") == Ok(Decimal(12, 1))
  {
    ParseZero();
    ParseHundred();
    ParseAboveHundred();
    ParseTwoDots();
  }

  lemma ParseZero()
    ensures ParseFloat("0") == Some(Decimal(0, 0))
  {
    assert Value("0") == 0 by { assert "0"[..0] == ""; }
    ParseFloatInteger("0", "");
    assert "0" + "" == "0";
  }

  lemma ParseHundred()
    ensures ParseFloat("100") == Some(Decimal(100, 0))
  {
    Hundred();
    ParseFloatInteger("100", "");
    assert "100" + "" == "100";
  }

  lemma ParseAboveHundred()
    ensures ParseFloat("100.01") == Some(Decimal(10001, 2))
  {
    ParseFloatDecimal("100", "01", "");
    assert "100" + "." + "01" + "" == "100.01";
    assert "100" + "01" == "10001";
    Hundred();
    assert Value("1000") == 1000 by { assert "1000"[..3] == "100"; }
    assert Value("10001") == 10001 by { assert "10001"[..4] == "1000"; }
  }

  lemma ParseTwoDots()
    ensures ParseFloat("1.2.3") == Some(Decimal(12, 1))
  {
    ParseFloatDecimal("1", "2", ".3");
    assert "1" + "." + "2" + ".3" == "1.2.3";
    assert "1" + "2" == "12";
    assert Value("12") == 12 by { assert "12"[..1] == "1" && "1"[..0] == ""; }
  }

  lemma Hundred()
    ensures Value("100") == 100
  {
    assert "100"[..2] == "10" && "10"[..1] == "1" && "1"[..0] == "";
    assert Value("1") == 1;
    assert Value("10") == 10;
  }

  /** Both fields checked independently; the form is accepted only when both pass. */
  function ValidateForm(principalAmount: string, settlementPercentage: string): (r: Result<FormValues, FormErrors>)
    ensures r.Ok? <==> ValidateAmount(principalAmount).Ok? && ValidatePercentage(settlementPercentage).Ok?
    ensures r.Ok? ==> r.value.principalAmount > 0 && 0.0 < r.value.settlementPercentage.ToReal() <= 100.0
    ensures r.Ok? ==> r.value == FormValues(ValidateAmount(principalAmount).value, ValidatePercentage(settlementPercentage).value)
    ensures r.Err? ==> (r.error.principalAmount.Some? <==> ValidateAmount(principalAmount).Err?)
    ensures r.Err? ==> (r.error.settlementPercentage.Some? <==> ValidatePercentage(settlementPercentage).Err?)
    ensures r.Err? && ValidateAmount(principalAmount).Err? ==>
      r.error.principalAmount == Some(ValidateAmount(principalAmount).error)
    ensures r.Err? && ValidatePercentage(settlementPercentage).Err? ==>
      r.error.settlementPercentage == Some(ValidatePercentage(settlementPercentage).error)
  {
    var principal, percentage := ValidateAmount(principalAmount), ValidatePercentage(settlementPercentage);
    if principal.Ok? && percentage.Ok? then Ok(FormValues(principal.value, percentage.value))
    else Err(FormErrors(
      if principal.Err? then Some(principal.error) else None,
      if percentage.Err? then Some(percentage.error) else None))
  }

  /**
   * The formula of `onSubmit`: `Math.round(p * (s / 100))`. It is never
   * negative, never exceeds the principal for a percentage of at most 100,
   * and is the whole principal at 100.
   */
  function Compute(principalAmount: nat, settlementPercentage: real): (r: CalculationResult)
    requires settlementPercentage >= 0.0
    ensures r.settlementAmount >= 0
    ensures settlementPercentage <= 100.0 ==> r.settlementAmount <= principalAmount
    ensures settlementPercentage == 100.0 ==> r.settlementAmount == principalAmount
  {
    var amount := principalAmount as real * (settlementPercentage / 100.0);
    AmountBounds(principalAmount, settlementPercentage, amount);
    CalculationResult(Round(amount))
  }

  lemma AmountBounds(p: nat, s: real, amount: real)
    requires s >= 0.0 && amount == p as real * (s / 100.0)
    ensures Round(amount) >= 0
    ensures s <= 100.0 ==> Round(amount) <= p
    ensures s == 100.0 ==> Round(amount) == p
  {
    HundredthBounds(s);
    AtMostPrincipal(p as real, s / 100.0, amount);
    if s <= 100.0 {
      RoundAtMost(amount, p);
    }
    if s == 100.0 {
      RoundUnique(amount, p);
    }
  }

  lemma HundredthBounds(s: real)
    requires s >= 0.0
    ensures s / 100.0 >= 0.0
    ensures s <= 100.0 ==> s / 100.0 <= 1.0
    ensures s == 100.0 ==> s / 100.0 == 1.0
  {
    RatioAtMost(s, 100.0, 1.0);
    RatioAtMost(0.0 - s, 100.0, 0.0);
  }

  lemma AtMostPrincipal(p: real, f: real, amount: real)
    requires p >= 0.0 && f >= 0.0 && amount == p * f
    ensures amount >= 0.0
    ensures f <= 1.0 ==> amount <= p
    ensures f == 1.0 ==> amount == p
  {
    MulNonNeg(p, f);
    if f <= 1.0 {
      MulNonNeg(p, 1.0 - f);
    }
  }

  lemma MulNonNeg(a: real, b: real)
    requires a >= 0.0 && b >= 0.0
    ensures a * b >= 0.0
  {
  }

  lemma RoundAtMost(x: real, n: int)
    requires x <= n as real
    ensures Round(x) <= n
  {
  }

  /** For a parsed percentage `m / 10^k` the amount is the half-up rounding of `p * m / (100 * 10^k)`, in integers. */
  lemma ComputeExact(principalAmount: nat, settlementPercentage: Decimal)
    ensures Compute(principalAmount, settlementPercentage.ToReal()).settlementAmount ==
      RoundRatio(principalAmount * settlementPercentage.digits, 100 * Pow10(settlementPercentage.scale))
  {
    var p, m, q := principalAmount, settlementPercentage.digits, Pow10(settlementPercentage.scale);
    var amount := p as real * (settlementPercentage.ToReal() / 100.0);
    assert Compute(p, settlementPercentage.ToReal()).settlementAmount == Round(amount);
    ExactAmount(p, m, q, amount);
    RoundOfRatio(p * m, 100 * q);
  }

  lemma ExactAmount(p: nat, m: nat, q: nat, amount: real)
    requires q > 0 && amount == p as real * (m as real / q as real / 100.0)
    ensures amount == (p * m) as real / (100 * q) as real
  {
    CastMul(p, m);
    CastMul(100, q);
    ScaleFraction(p as real, m as real, q as real);
  }

  lemma ScaleFraction(p: real, m: real, q: real)
    requires q > 0.0
    ensures p * (m / q / 100.0) == (p * m) / (100.0 * q)
  {
  }

  /** A principal of 10,000,000 at 30% settles for 3,000,000. */
  lemma ComputeExample()
    ensures Compute(10000000, 30.0) == CalculationResult(3000000)
  {
    RoundUnique(10000000.0 * (30.0 / 100.0), 3000000);
  }

  /** The form `10,000,000` / `30` is accepted with those numbers. */
  lemma ValidateFormExample()
    ensures ValidateForm("10,000,000", "30") == Ok(FormValues(10000000, Decimal(30, 0)))
    ensures Decimal(30, 0).ToReal() == 30.0
  {
    GroupedMillions();
    ValidateGrouped(10000000);
    ParseThirty();
  }

  lemma ParseThirty()
    ensures ParseFloat("30") == Some(Decimal(30, 0))
  {
    assert Value("30") == 30 by { assert "30"[..1] == "3" && "3"[..0] == ""; }
    ParseFloatInteger("30", "");
    assert "30" + "" == "30";
  }

  /** The component's state: the result card shown, and the key that replays its animation. */
  class SettlementCalculatorState {
    var result: Option<CalculationResult>
    var animationKey: nat

    constructor ()
      ensures result == None && animationKey == 0
    {
      result := None;
      animationKey := 0;
    }

    /**
     * `form.handleSubmit(onSubmit)`: a form that fails validation leaves the
     * state as it was; a valid one replaces the result with the freshly
     * computed one and bumps the animation key by one.
     */
    method Submit(principalAmount: string, settlementPercentage: string) returns (accepted: bool)
      modifies this
      ensures accepted <==> ValidateForm(principalAmount, settlementPercentage).Ok?
      ensures accepted ==>
        var v := ValidateForm(principalAmount, settlementPercentage).value;
        && result == Some(Compute(v.principalAmount, v.settlementPercentage.ToReal()))
        && animationKey == old(animationKey) + 1
      ensures !accepted ==> result == old(result) && animationKey == old(animationKey)
    {
      accepted := ValidateForm(principalAmount, settlementPercentage).Ok?;
      if accepted {
        // onSubmit parses both fields again, with the functions the validator used.
        var principal := ParseInt(Keep(principalAmount, NotComma)).value;
        var percentage := ParseFloat(settlementPercentage).value;
        result := Some(Compute(principal, percentage.ToReal()));
        animationKey := animationKey + 1;
      }
    }
  }
}
