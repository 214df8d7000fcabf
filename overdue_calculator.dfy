/**
 * The overdue calculator: a monthly due amount and a number of overdue days
 * give the average daily amount, the overdue amount per day and the total
 * overdue amount.
 */
module OverdueCalculator {
  import opened Results
  import opened TextFilter
  import opened JsNumber
  import opened NumberField

  /** 1.099% of the due amount per day, as an exact rational. */
  const AVERAGE_RATE: real := 1.099 / 100.0
  const OVERDUE_MULTIPLIER: real := 1.5

  datatype CalculationResult = CalculationResult(averageDailyAmount: int, overduePerDay: int, totalOverdue: int)

  datatype FormValues = FormValues(dueAmount: nat, overdueDays: nat)

  /** The first broken rule of each field, `None` for a field that passes. */
  datatype FormErrors = FormErrors(dueAmount: Option<FieldError>, overdueDays: Option<FieldError>)

  /** The days field's keystroke filter: `value.replace(/[^0-9]/g, "")`. */
  function FilterDays(value: string): (r: string)
    ensures AllDigits(r)
    ensures forall c :: c in r <==> c in value && IsDigit(c)
  {
    Keep(value, IsDigit)
  }

  /**
   * The filter keeps the digits in their order: it distributes over
   * concatenation and leaves a digit string as it is (so filtering twice
   * is filtering once).
   */
  lemma FilterDaysKeepsOrder(a: string, b: string)
    ensures FilterDays(a + b) == FilterDays(a) + FilterDays(b)
    ensures AllDigits(a) ==> FilterDays(a) == a
    ensures FilterDays(FilterDays(a)) == FilterDays(a)
  {
    KeepAppend(a, b, IsDigit);
    if AllDigits(a) {
      KeepAllKept(a, IsDigit);
    }
    KeepIdempotent(a, IsDigit);
  }

  /** The days schema: `.min(1)`, then `/^\d+$/`, then `parseInt(val, 10) > 0`. */
  function ValidateDays(val: string): (r: Result<nat, FieldError>)
    ensures r == Err(Required) <==> val == ""
    ensures r == Err(Invalid) <==> val != "" && !AllDigits(val)
    ensures r.Ok? <==> val != "" && AllDigits(val) && HasNonZero(val)
    ensures r.Ok? ==> r.value > 0 && ParseInt(val) == Some(r.value)
  {
    if |val| < 1 then Err(Required)
    else if !AllDigits(val) then Err(Invalid)
    else
      ValuePositive(val);
      match ParseInt(val)
      case Some(n) => if n > 0 then Ok(n) else Err(OutOfRange)
      case None => Err(OutOfRange)
  }

  /** The rule each boundary value breaks first. */
  lemma ValidateDaysRejects()
    ensures ValidateDays("") == Err(Required)
    ensures ValidateDays("0") == Err(OutOfRange)
    ensures ValidateDays("00") == Err(OutOfRange)
    ensures ValidateDays("1.5") == Err(Invalid)
  {
    assert !HasNonZero("0");
    assert !HasNonZero("00");
    assert !IsDigit("1.5"[1]);
  }

  /** What the days field holds after a keystroke is accepted exactly when the typed text has a digit other than `0`. */
  lemma ValidateFilteredDays(raw: string)
    ensures ValidateDays(FilterDays(raw)).Ok? <==> HasNonZeroDigit(raw)
  {
    var digits := FilterDays(raw);
    if HasNonZeroDigit(raw) {
      var i :| 0 <= i < |raw| && IsDigit(raw[i]) && raw[i] != '0';
      assert raw[i] in raw;
      var j :| 0 <= j < |digits| && digits[j] == raw[i];
    }
    if HasNonZero(digits) {
      var j :| 0 <= j < |digits| && digits[j] != '0';
      assert digits[j] in digits;
      var i :| 0 <= i < |raw| && raw[i] == digits[j];
    }
  }

  /** Both fields checked independently; the form is accepted only when both pass. */
  function ValidateForm(dueAmount: string, overdueDays: string): (r: Result<FormValues, FormErrors>)
    ensures r.Ok? <==> ValidateAmount(dueAmount).Ok? && ValidateDays(overdueDays).Ok?
    ensures r.Ok? ==> r.value.dueAmount > 0 && r.value.overdueDays > 0
    ensures r.Ok? ==> r.value == FormValues(ValidateAmount(dueAmount).value, ValidateDays(overdueDays).value)
    ensures r.Err? ==> (r.error.dueAmount.Some? <==> ValidateAmount(dueAmount).Err?)
    ensures r.Err? ==> (r.error.overdueDays.Some? <==> ValidateDays(overdueDays).Err?)
    ensures r.Err? && ValidateAmount(dueAmount).Err? ==> r.error.dueAmount == Some(ValidateAmount(dueAmount).error)
    ensures r.Err? && ValidateDays(overdueDays).Err? ==> r.error.overdueDays == Some(ValidateDays(overdueDays).error)
  {
    var due, days := ValidateAmount(dueAmount), ValidateDays(overdueDays);
    if due.Ok? && days.Ok? then Ok(FormValues(due.value, days.value))
    else Err(FormErrors(
      if due.Err? then Some(due.error) else None,
      if days.Err? then Some(days.error) else None))
  }

  /**
   * The formula of `onSubmit`: each reported field is `Math.round` of its
   * own unrounded product, so the three fields are the half-up roundings
   * of `a * 1099/100000`, `a * 3297/200000` and `a * d * 3297/200000`.
   */
  function Compute(dueAmount: nat, overdueDays: nat): (r: CalculationResult)
    ensures r.averageDailyAmount == RoundRatio(1099 * dueAmount, 100000)
    ensures r.overduePerDay == RoundRatio(3297 * dueAmount, 200000)
    ensures r.totalOverdue == RoundRatio(3297 * dueAmount * overdueDays, 200000)
    ensures r.averageDailyAmount >= 0 && r.overduePerDay >= 0 && r.totalOverdue >= 0
  {
    var averageDailyAmount := dueAmount as real * AVERAGE_RATE;
    var overduePerDay := averageDailyAmount * OVERDUE_MULTIPLIER;
    var totalOverdue := overduePerDay * overdueDays as real;
    ExactProducts(dueAmount, overdueDays, averageDailyAmount, overduePerDay, totalOverdue);
    CalculationResult(Round(averageDailyAmount), Round(overduePerDay), Round(totalOverdue))
  }

  lemma ExactProducts(a: nat, d: nat, average: real, perDay: real, total: real)
    requires average == a as real * AVERAGE_RATE
    requires perDay == average * OVERDUE_MULTIPLIER
    requires total == perDay * d as real
    ensures Round(average) == RoundRatio(1099 * a, 100000)
    ensures Round(perDay) == RoundRatio(3297 * a, 200000)
    ensures Round(total) == RoundRatio(3297 * a * d, 200000)
  {
    AverageRounded(a, average);
    PerDayRounded(a, perDay);
    TotalRounded(a, d, total);
  }

  lemma AverageRounded(a: nat, average: real)
    requires average == a as real * AVERAGE_RATE
    ensures Round(average) == RoundRatio(1099 * a, 100000)
  {
    AverageExact(a);
    RoundOfRatio(1099 * a, 100000);
  }

  lemma PerDayRounded(a: nat, perDay: real)
    requires perDay == a as real * AVERAGE_RATE * OVERDUE_MULTIPLIER
    ensures Round(perDay) == RoundRatio(3297 * a, 200000)
  {
    PerDayExact(a);
    RoundOfRatio(3297 * a, 200000);
  }

  lemma TotalRounded(a: nat, d: nat, total: real)
    requires total == a as real * AVERAGE_RATE * OVERDUE_MULTIPLIER * d as real
    ensures Round(total) == RoundRatio(3297 * a * d, 200000)
  {
    TotalExact(a, d);
    RoundOfRatio(3297 * a * d, 200000);
  }

  lemma AverageExact(a: nat)
    ensures a as real * AVERAGE_RATE == (1099 * a) as real / 100000 as real
  {
  }

  lemma PerDayExact(a: nat)
    ensures a as real * AVERAGE_RATE * OVERDUE_MULTIPLIER == (3297 * a) as real / 200000 as real
  {
  }

  lemma TotalExact(a: nat, d: nat)
    ensures a as real * AVERAGE_RATE * OVERDUE_MULTIPLIER * d as real == (3297 * a * d) as real / 200000 as real
  {
    PerDayExact(a);
    CastMul(3297 * a, d);
    var x := (3297 * a) as real;
    assert x / 200000.0 * d as real == (x * d as real) / 200000.0;
  }

  /** Due amount 1,000,000 overdue for 5 days. */
  lemma ComputeExample()
    ensures Compute(1000000, 5) == CalculationResult(10990, 16485, 82425)
  {
  }

  /** The form `1,000,000` / `5` is accepted with those numbers. */
  lemma ValidateFormExample()
    ensures ValidateForm("1,000,000", "5") == Ok(FormValues(1000000, 5))
  {
    GroupedMillions();
    ValidateGrouped(1000000);
    ValidateFive();
  }

  lemma ValidateFive()
    ensures ValidateDays("5") == Ok(5)
  {
    assert Value("5") == 5 by { assert "5"[..0] == ""; }
    assert HasNonZero("5") by { assert "5"[0] != '0'; }
  }

  /**
   * The total is rounded from the unrounded amount per day, not from the
   * displayed one: for an amount of 100 over 2 days the fields read 1, 2
   * and 3, while rounding stage by stage would give a total of 4.
   */
  lemma TotalIsNotChainedRounding()
    ensures Compute(100, 2) == CalculationResult(1, 2, 3)
    ensures Round(Round(Round(100 as real * AVERAGE_RATE) as real * OVERDUE_MULTIPLIER) as real * 2 as real) == 4
  {
    RoundUnique(100 as real * AVERAGE_RATE, 1);
    RoundUnique(1.5, 2);
    RoundUnique(4.0, 4);
  }

  /** The component's state: the result card shown, and the key that replays its animation. */
  class OverdueCalculatorState {
    var result: Option<CalculationResult>
    var animationKey: nat

    constructor ()
      ensures result == None && animationKey == 0
    {
      result := None;
      animationKey := 0;
    }

    /**
     * `form.handleSubmit(onSubmit)`: a form that fails validation leaves the
     * state as it was; a valid one replaces the result with the freshly
     * computed one and bumps the animation key by one.
     */
    method Submit(dueAmount: string, overdueDays: string) returns (accepted: bool)
      modifies this
      ensures accepted <==> ValidateForm(dueAmount, overdueDays).Ok?
      ensures accepted ==>
        var v := ValidateForm(dueAmount, overdueDays).value;
        && result == Some(Compute(v.dueAmount, v.overdueDays))
        && animationKey == old(animationKey) + 1
      ensures !accepted ==> result == old(result) && animationKey == old(animationKey)
    {
      accepted := ValidateForm(dueAmount, overdueDays).Ok?;
      if accepted {
        // onSubmit parses both fields again, as the validator did.
        var due := ParseInt(Keep(dueAmount, NotComma)).value;
        var days := ParseInt(overdueDays).value;
        result := Some(Compute(due, days));
        animationKey := animationKey + 1;
      }
    }
  }
}
