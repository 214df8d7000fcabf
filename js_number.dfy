/**
 * The JavaScript number builtins the calculators call, over exact
 * arithmetic: `parseInt(s, 10)`, `parseFloat(s)` and `Math.round(x)`.
 * The parsers read the characters the input fields can hold (digits, `,`
 * and `.`); any other character ends the number, as it does in JavaScript
 * for every character but whitespace, signs and exponents.
 */
module JsNumber {
  import opened Results
  import opened TextFilter

  function DigitValue(c: char): (d: nat)
    requires IsDigit(c)
    ensures d < 10
  {
    c as int - '0' as int
  }

  function Pow10(k: nat): (r: nat)
    ensures r >= 1
  {
    if k == 0 then 1 else 10 * Pow10(k - 1)
  }

  /** The base-10 value of a digit string, most significant digit first; `""` reads as 0. */
  function Value(ds: string): (n: nat)
    requires AllDigits(ds)
    ensures n < Pow10(|ds|)
  {
    if ds == [] then 0 else Value(ds[..|ds| - 1]) * 10 + DigitValue(ds[|ds| - 1])
  }

  lemma {:induction false} ValueAppend(a: string, b: string)
    requires AllDigits(a) && AllDigits(b)
    ensures AllDigits(a + b)
    ensures Value(a + b) == Value(a) * Pow10(|b|) + Value(b)
  {
    assert AllDigits(a + b) by {
      forall i | 0 <= i < |a + b| ensures IsDigit((a + b)[i]) {
        if i < |a| { assert (a + b)[i] == a[i]; } else { assert (a + b)[i] == b[i - |a|]; }
      }
    }
    if b == [] {
      assert a + b == a;
    } else {
      var b' := b[..|b| - 1];
      assert (a + b)[..|a + b| - 1] == a + b';
      assert (a + b)[|a + b| - 1] == b[|b| - 1];
      ValueAppend(a, b');
      assert Value(a + b) == Value(a + b') * 10 + DigitValue(b[|b| - 1]);
      assert Value(b) == Value(b') * 10 + DigitValue(b[|b| - 1]);
      assert Pow10(|b|) == Pow10(|b'|) * 10;
      ShiftDigit(Value(a), Pow10(|b'|), Value(b'), DigitValue(b[|b| - 1]));
    }
  }

  lemma ShiftDigit(hi: nat, p: nat, lo: nat, d: nat)
    ensures (hi * p + lo) * 10 + d == hi * (p * 10) + (lo * 10 + d)
  {
  }

  predicate HasNonZero(ds: string) {
    exists i :: 0 <= i < |ds| && ds[i] != '0'
  }

  /** A digit string denotes a positive number exactly when one of its digits is not `0`. */
  lemma {:induction false} ValuePositive(ds: string)
    requires AllDigits(ds)
    ensures Value(ds) > 0 <==> HasNonZero(ds)
  {
    if ds != [] {
      var init := ds[..|ds| - 1];
      ValuePositive(init);
      if exists i :: 0 <= i < |init| && init[i] != '0' {
        var i :| 0 <= i < |init| && init[i] != '0';
        assert ds[i] != '0';
      }
      if exists i :: 0 <= i < |ds| && ds[i] != '0' {
        var i :| 0 <= i < |ds| && ds[i] != '0';
        if i < |init| { assert init[i] != '0'; }
      }
    }
  }

  /** The longest prefix of `s` made of digits. */
  function LeadingDigits(s: string): (r: string)
    ensures r <= s && AllDigits(r)
    ensures |r| == |s| || !IsDigit(s[|r|])
  {
    if s == [] || !IsDigit(s[0]) then [] else [s[0]] + LeadingDigits(s[1..])
  }

  /** `parseInt(s, 10)`: the value of the leading run of digits, or `None` for NaN. */
  function ParseInt(s: string): (r: Option<nat>)
    ensures r.None? <==> s == [] || !IsDigit(s[0])
    ensures AllDigits(s) && s != [] ==> r == Some(Value(s))
    ensures r.Some? ==> r.value == Value(LeadingDigits(s))
  {
    var ds := LeadingDigits(s);
    LeadingOfAllDigits(s);
    if ds == [] then None else Some(Value(ds))
  }

  /** The exact decimal `digits / 10^scale`. */
  datatype Decimal = Decimal(digits: nat, scale: nat) {
    function ToReal(): real {
      digits as real / Pow10(scale) as real
    }
  }

  /**
   * `parseFloat(s)`: the longest prefix of the form `digits [. digits]`
   * holding at least one digit, read as an exact decimal; `None` for NaN.
   */
  function ParseFloat(s: string): (r: Option<Decimal>)
    ensures r.None? <==>
      s == [] || (!IsDigit(s[0]) && (s[0] != '.' || |s| == 1 || !IsDigit(s[1])))
  {
    var whole := LeadingDigits(s);
    var rest := s[|whole|..];
    var frac := if rest != [] && rest[0] == '.' then LeadingDigits(rest[1..]) else [];
    ValueAppend(whole, frac);
    if whole == [] && frac == [] then None else Some(Decimal(Value(whole + frac), |frac|))
  }

  /** What `parseFloat` reads from an integer part, a dot, a fraction and a tail that does not go on with a digit. */
  lemma ParseFloatDecimal(whole: string, frac: string, tail: string)
    requires AllDigits(whole) && AllDigits(frac) && whole + frac != []
    requires tail == [] || !IsDigit(tail[0])
    ensures AllDigits(whole + frac)
    ensures ParseFloat(whole + "." + frac + tail) == Some(Decimal(Value(whole + frac), |frac|))
  {
    var s := whole + "." + frac + tail;
    DotSplit(whole, frac, tail);
    ParseFloatSplit(s, whole, frac);
  }

  lemma DotSplit(whole: string, frac: string, tail: string)
    requires AllDigits(whole) && AllDigits(frac)
    requires tail == [] || !IsDigit(tail[0])
    ensures var s := whole + "." + frac + tail;
      && LeadingDigits(s) == whole
      && s[|whole|..] != [] && s[|whole|..][0] == '.'
      && LeadingDigits(s[|whole|..][1..]) == frac
  {
    var rest := ['.'] + (frac + tail);
    var s := whole + rest;
    assert s == whole + "." + frac + tail;
    LeadingOfDigits(whole, rest);
    assert s[|whole|..] == rest;
    assert rest[1..] == frac + tail;
    LeadingOfDigits(frac, tail);
  }

  /** `ParseFloat` in terms of the integer part and the fraction it reads. */
  lemma ParseFloatSplit(s: string, whole: string, frac: string)
    requires whole == LeadingDigits(s)
    requires frac == (if s[|whole|..] != [] && s[|whole|..][0] == '.' then LeadingDigits(s[|whole|..][1..]) else [])
    ensures AllDigits(whole + frac)
    ensures ParseFloat(s) == if whole == [] && frac == [] then None else Some(Decimal(Value(whole + frac), |frac|))
  {
    ValueAppend(whole, frac);
  }

  /** What `parseFloat` reads from a digit string with no dot. */
  lemma ParseFloatInteger(whole: string, tail: string)
    requires AllDigits(whole) && whole != []
    requires tail == [] || (!IsDigit(tail[0]) && tail[0] != '.')
    ensures ParseFloat(whole + tail) == Some(Decimal(Value(whole), 0))
  {
    LeadingOfDigits(whole, tail);
    assert (whole + tail)[|whole|..] == tail;
    assert whole + [] == whole;
  }

  lemma LeadingOfAllDigits(s: string)
    ensures AllDigits(s) ==> LeadingDigits(s) == s
  {
    if AllDigits(s) {
      assert s + [] == s;
      LeadingOfDigits(s, []);
    }
  }

  lemma {:induction false} LeadingOfDigits(ds: string, tail: string)
    requires AllDigits(ds)
    requires tail == [] || !IsDigit(tail[0])
    ensures LeadingDigits(ds + tail) == ds
  {
    if ds != [] {
      assert (ds + tail)[1..] == ds[1..] + tail;
      LeadingOfDigits(ds[1..], tail);
    } else {
      assert ds + tail == tail;
    }
  }

  /**
   * `Math.round(x)`: the integer nearest to `x`, a half rounding up
   * (towards +infinity).
   */
  function Round(x: real): (r: int)
    ensures r as real - 0.5 <= x < r as real + 0.5
    ensures x >= 0.0 ==> r >= 0
  {
    (x + 0.5).Floor
  }

  /** Only one integer lies within a half below and under a half above `x`. */
  lemma RoundUnique(x: real, r: int)
    requires r as real - 0.5 <= x < r as real + 0.5
    ensures Round(x) == r
  {
  }

  /** Half-up rounding of the fraction `n / q`, in integers. */
  function RoundRatio(n: nat, q: nat): (r: nat)
    requires q > 0
    ensures q * (2 * r - 1) <= 2 * n < q * (2 * r + 1)
  {
    (2 * n + q) / (2 * q)
  }

  /** `Math.round` of an exact fraction is the integer half-up rounding of that fraction. */
  lemma RoundOfRatio(n: nat, q: nat)
    requires q > 0
    ensures Round(n as real / q as real) == RoundRatio(n, q)
  {
    var t: int := RoundRatio(n, q);
    var x := n as real / q as real;
    HalfBounds(n, q, t);
    assert t as real - 0.5 <= x < t as real + 0.5;
    RoundUnique(x, t);
  }

  /** Dividing the integer bounds of `RoundRatio` by `2q` in the reals. */
  lemma HalfBounds(n: nat, q: nat, t: int)
    requires q > 0
    requires (q as int) * (2 * t - 1) <= 2 * n < (q as int) * (2 * t + 1)
    ensures t as real - 0.5 <= n as real / q as real < t as real + 0.5
  {
    CastMul(q, 2 * t - 1);
    CastMul(q, 2 * t + 1);
    CastHalve(q as real, t as real, n as real);
  }

  lemma CastMul(a: int, b: int)
    ensures (a * b) as real == a as real * b as real
  {
  }

  lemma CastHalve(q: real, t: real, n: real)
    requires q > 0.0
    requires q * (2.0 * t - 1.0) <= 2.0 * n < q * (2.0 * t + 1.0)
    ensures t - 0.5 <= n / q < t + 0.5
  {
    assert q * (t - 0.5) <= n;
    assert n < q * (t + 0.5);
    BelowRatio(t - 0.5, n, q);
    AboveRatio(t + 0.5, n, q);
  }

  lemma BelowRatio(a: real, n: real, q: real)
    requires q > 0.0 && q * a <= n
    ensures a <= n / q
  {
  }

  lemma AboveRatio(b: real, n: real, q: real)
    requires q > 0.0 && n < q * b
    ensures n / q < b
  {
  }

  /** A fraction with a positive denominator is at most `b` exactly when its numerator is at most `q * b`. */
  lemma RatioAtMost(n: real, q: real, b: real)
    requires q > 0.0
    ensures n / q <= b <==> n <= q * b
  {
    if n <= q * b {
      assert n / q <= b;
    } else {
      BelowRatioStrict(b, n, q);
    }
  }

  lemma BelowRatioStrict(a: real, n: real, q: real)
    requires q > 0.0 && q * a < n
    ensures a < n / q
  {
  }
}
