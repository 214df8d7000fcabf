/**
 * The money field both calculators share: the due amount of the overdue
 * calculator and the principal of the settlement calculator have the same
 * keystroke formatter (`formatNumberInput`) and the same three schema rules.
 */
module NumberField {
  import opened Results
  import opened TextFilter
  import opened JsNumber
  import opened EnUsFormat

  /** The first rule a field value breaks; the form shows one message per rule. */
  datatype FieldError =
    | Required    // the value is empty
    | Invalid     // the value does not parse as a number (days: is not all digits)
    | OutOfRange  // the number is not above 0 (percentage: not in (0, 100])

  predicate HasDigit(s: string) {
    exists i :: 0 <= i < |s| && IsDigit(s[i])
  }

  predicate HasNonZeroDigit(s: string) {
    exists i :: 0 <= i < |s| && IsDigit(s[i]) && s[i] != '0'
  }

  /** `formatNumberInput`: keep the digits, parse them, re-render them grouped; `""` when there is no digit. */
  function FormatNumberInput(value: string): (r: string)
    ensures r == "" <==> !HasDigit(value)
    ensures r != "" ==> Grouped(r)
  {
    var digits := Keep(value, IsDigit);
    assert HasDigit(value) ==> digits != [] by {
      if HasDigit(value) {
        var i :| 0 <= i < |value| && IsDigit(value[i]);
        assert value[i] in value;
        assert value[i] in digits;
      }
    }
    match ParseInt(digits)
    case None => ""
    case Some(n) => FormatEnUs(n)
  }

  /** The formatted amount, with its commas stripped, parses to the number the input's digits spell. */
  lemma FormatNumberInputValue(value: string)
    requires HasDigit(value)
    ensures AllDigits(Keep(value, IsDigit))
    ensures ParseInt(Keep(FormatNumberInput(value), NotComma)) == Some(Value(Keep(value, IsDigit)))
  {
    var digits := Keep(value, IsDigit);
    assert digits != [] by {
      var i :| 0 <= i < |value| && IsDigit(value[i]);
      assert value[i] in value;
    }
    FormatEnUsRoundTrip(Value(digits));
  }

  /** Formatting an already formatted amount changes nothing. */
  lemma FormatNumberInputIdempotent(value: string)
    ensures FormatNumberInput(FormatNumberInput(value)) == FormatNumberInput(value)
  {
    var r := FormatNumberInput(value);
    if r != "" {
      var digits := Keep(value, IsDigit);
      assert digits != [] && IsDigit(digits[0]);
      var n := Value(digits);
      assert r == FormatEnUs(n);
      GroupedDigitsAreNonCommas(r);
      FormatEnUsRoundTrip(n);
      assert ParseInt(Keep(r, IsDigit)) == Some(n);
    }
  }

  /** The keystroke `abc1,0a00` shows as `1,000`, and stays so. */
  lemma FormatNumberInputExample()
    ensures FormatNumberInput("abc1,0a00") == "1,000"
    ensures FormatNumberInput("1,000") == "1,000"
  {
    DigitsOfExample();
    DigitsOfThousand();
    assert ParseInt("1000") == Some(1000);
    FormatNumberInputIdempotent("abc1,0a00");
  }

  lemma DigitsOfExample()
    ensures Keep("abc1,0a00", IsDigit) == "1000"
  {
    assert Keep("0", IsDigit) == "0";
    assert Keep("00", IsDigit) == "00";
    assert Keep("a00", IsDigit) == "00";
    assert Keep("0a00", IsDigit) == "000";
    assert Keep(",0a00", IsDigit) == "000";
    assert Keep("1,0a00", IsDigit) == "1000";
    assert Keep("c1,0a00", IsDigit) == "1000";
    assert Keep("bc1,0a00", IsDigit) == "1000";
  }

  lemma DigitsOfThousand()
    ensures Value("1000") == 1000
    ensures FormatEnUs(1000) == "1,000"
  {
    assert "1000"[..3] == "100" && "100"[..2] == "10" && "10"[..1] == "1" && "1"[..0] == "";
    assert Value("1") == 1;
    assert Value("10") == 10;
    assert Value("100") == 100;
    assert Digits(1) == "1";
    assert Group(0) == "000";
    assert FormatEnUs(1000) == FormatEnUs(1) + "," + Group(0);
  }

  /**
   * The amount schema: `.min(1)`, then `parseInt` of the comma-stripped
   * value must not be NaN, then it must be above 0.
   */
  function ValidateAmount(val: string): (r: Result<nat, FieldError>)
    ensures r == Err(Required) <==> val == ""
    ensures r == Err(Invalid) <==> val != "" && ParseInt(Keep(val, NotComma)).None?
    ensures r == Err(OutOfRange) <==> val != "" && ParseInt(Keep(val, NotComma)) == Some(0)
    ensures r.Ok? ==> r.value > 0 && ParseInt(Keep(val, NotComma)) == Some(r.value)
  {
    if |val| < 1 then Err(Required)
    else match ParseInt(Keep(val, NotComma))
      case None => Err(Invalid)
      case Some(n) => if n > 0 then Ok(n) else Err(OutOfRange)
  }

  /**
   * An amount is accepted exactly when it is non-empty, its comma-stripped
   * form starts with a digit, and the leading run of digits has a digit other than `0`.
   */
  lemma ValidateAmountAccepts(val: string)
    ensures ValidateAmount(val).Ok? <==>
      var t := Keep(val, NotComma);
      && val != ""
      && t != [] && IsDigit(t[0])
      && HasNonZero(LeadingDigits(t))
  {
    var t := Keep(val, NotComma);
    var ds := LeadingDigits(t);
    ValuePositive(ds);
    if val != "" && t != [] && IsDigit(t[0]) {
      assert ParseInt(t) == Some(Value(ds));
      assert ValidateAmount(val) == if Value(ds) > 0 then Ok(Value(ds)) else Err(OutOfRange);
    } else if val != "" {
      assert ParseInt(t).None?;
    }
  }

  /** The rule each boundary value breaks first. */
  lemma ValidateAmountRejects()
    ensures ValidateAmount("") == Err(Required)
    ensures ValidateAmount(",") == Err(Invalid)
    ensures ValidateAmount("0") == Err(OutOfRange)
    ensures ValidateAmount("0,000") == Err(OutOfRange)
  {
    assert Keep(",", NotComma) == "";
    RejectZero();
    RejectZeros();
  }

  lemma RejectZero()
    ensures ValidateAmount("0") == Err(OutOfRange)
  {
    assert Keep("0", NotComma) == "0";
    assert Value("0") == 0 by { assert "0"[..0] == ""; }
  }

  lemma RejectZeros()
    ensures ValidateAmount("0,000") == Err(OutOfRange)
  {
    assert Keep("0,000", NotComma) == "0000" by {
      assert Keep("0", NotComma) == "0";
      assert Keep("00", NotComma) == "00";
      assert Keep("000", NotComma) == "000";
      assert Keep(",000", NotComma) == "000";
    }
    ParseZeros();
  }

  lemma ParseZeros()
    ensures ParseInt("0000") == Some(0)
  {
    assert "0000"[..3] == "000" && "000"[..2] == "00" && "00"[..1] == "0" && "0"[..0] == "";
    assert Value("0") == 0;
    assert Value("00") == 0;
    assert Value("000") == 0;
    assert Value("0000") == 0;
  }

  /**
   * What the field shows after a keystroke is accepted exactly when the
   * typed text holds a digit other than `0`, and the accepted number is the
   * one those digits spell.
   */
  lemma ValidateFormattedAmount(raw: string)
    ensures AllDigits(Keep(raw, IsDigit))
    ensures ValidateAmount(FormatNumberInput(raw)).Ok? <==> HasNonZeroDigit(raw)
    ensures ValidateAmount(FormatNumberInput(raw)).Ok? ==>
      ValidateAmount(FormatNumberInput(raw)).value == Value(Keep(raw, IsDigit))
  {
    var digits := Keep(raw, IsDigit);
    ValuePositive(digits);
    if HasDigit(raw) {
      FormatNumberInputValue(raw);
    }
    if HasNonZeroDigit(raw) {
      var i :| 0 <= i < |raw| && IsDigit(raw[i]) && raw[i] != '0';
      assert raw[i] in raw;
      var j :| 0 <= j < |digits| && digits[j] == raw[i];
    }
    if HasNonZero(digits) {
      var j :| 0 <= j < |digits| && digits[j] != '0';
      assert digits[j] in digits;
      var i :| 0 <= i < |raw| && raw[i] == digits[j];
    }
  }

  /** A grouped rendering of a positive number passes the amount schema with that number. */
  lemma ValidateGrouped(n: nat)
    requires n > 0
    ensures ValidateAmount(FormatEnUs(n)) == Ok(n)
  {
    FormatEnUsRoundTrip(n);
  }

  lemma GroupedMillions()
    ensures FormatEnUs(1000000) == "1,000,000"
    ensures FormatEnUs(10000000) == "10,000,000"
  {
    DigitsOfThousand();
    assert Group(0) == "000";
    assert FormatEnUs(1000000) == FormatEnUs(1000) + "," + Group(0);
    assert Digits(10) == Digits(1) + [DigitChar(0)];
    assert FormatEnUs(10000) == FormatEnUs(10) + "," + Group(0);
    assert FormatEnUs(10000000) == FormatEnUs(10000) + "," + Group(0);
  }
}
