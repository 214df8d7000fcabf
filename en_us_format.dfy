/**
 * `new Intl.NumberFormat("en-US").format(n)` for a natural number `n`:
 * its decimal digits, no leading zeros, with a `,` before every group of
 * three digits counted from the right (`1,000,000`).
 */
module EnUsFormat {
  import opened Results
  import opened TextFilter
  import opened JsNumber

  function DigitChar(d: nat): (c: char)
    requires d < 10
    ensures IsDigit(c) && DigitValue(c) == d
  {
    ('0' as int + d) as char
  }

  /** The plain decimal rendering of `n`. */
  function Digits(n: nat): (r: string)
    ensures r != [] && AllDigits(r) && Value(r) == n
    ensures r[0] == '0' ==> n == 0
  {
    if n < 10 then [DigitChar(n)] else Digits(n / 10) + [DigitChar(n % 10)]
  }

  lemma DigitsBelow1000(n: nat)
    requires n < 1000
    ensures |Digits(n)| <= 3
  {
    if n >= 10 {
      assert Digits(n) == Digits(n / 10) + [DigitChar(n % 10)];
      if n / 10 >= 10 {
        assert Digits(n / 10) == Digits(n / 100) + [DigitChar(n / 10 % 10)];
      }
    }
  }

  /** The three digits of `n`, zero-padded: one group after a separator. */
  function Group(n: nat): (r: string)
    requires n < 1000
    ensures |r| == 3 && AllDigits(r) && Value(r) == n
  {
    var r := [DigitChar(n / 100), DigitChar(n / 10 % 10), DigitChar(n % 10)];
    ValueOfThree(r);
    SplitThreeDigits(n);
    r
  }

  lemma ValueOfThree(r: string)
    requires |r| == 3 && AllDigits(r)
    ensures Value(r) == (DigitValue(r[0]) * 10 + DigitValue(r[1])) * 10 + DigitValue(r[2])
  {
    var r2, r1 := r[..2], r[..1];
    assert r2[..1] == r1 && r1[..0] == [];
    assert Value(r1) == DigitValue(r[0]);
    assert Value(r2) == Value(r1) * 10 + DigitValue(r[1]);
    assert Value(r) == Value(r2) * 10 + DigitValue(r[2]);
  }

  lemma SplitThreeDigits(n: nat)
    requires n < 1000
    ensures (n / 100 * 10 + n / 10 % 10) * 10 + n % 10 == n
  {
  }

  /**
   * The shape of an en-US grouped integer, stated by position: reading
   * from the right, every fourth character is a `,` and every other one
   * is a digit; the leftmost character is a digit, and `0` only when it
   * stands alone.
   */
  predicate Grouped(s: string) {
    && |s| % 4 != 0
    && (forall i :: 0 <= i < |s| ==> (s[i] == ',' <==> (|s| - i) % 4 == 0))
    && (forall i :: 0 <= i < |s| && s[i] != ',' ==> IsDigit(s[i]))
    && (s[0] == '0' ==> |s| == 1)
  }

  function FormatEnUs(n: nat): (r: string)
    ensures Grouped(r)
    ensures r[0] == '0' ==> n == 0
  {
    if n < 1000 then
      DigitsGrouped(n);
      Digits(n)
    else
      GroupedJoin(FormatEnUs(n / 1000), Group(n % 1000));
      FormatEnUs(n / 1000) + "," + Group(n % 1000)
  }

  lemma DigitsGrouped(n: nat)
    requires n < 1000
    ensures Grouped(Digits(n))
  {
    DigitsBelow1000(n);
  }

  /** A grouped string followed by a separator and three more digits is grouped. */
  lemma GroupedJoin(a: string, g: string)
    requires Grouped(a) && a[0] != '0' && |g| == 3 && AllDigits(g)
    ensures Grouped(a + "," + g)
    ensures (a + "," + g)[0] == a[0]
  {
    var s := a + "," + g;
    assert |s| == |a| + 4;
    forall i | 0 <= i < |s|
      ensures (s[i] == ',' <==> (|s| - i) % 4 == 0)
      ensures s[i] != ',' ==> IsDigit(s[i])
    {
      if i < |a| {
        assert s[i] == a[i];
        assert (|s| - i) % 4 == (|a| - i) % 4;
      } else if i == |a| {
        assert s[i] == ',';
      } else {
        assert s[i] == g[i - |a| - 1];
      }
    }
    assert s[0] == a[0];
  }

  /** Stripping the separators and parsing gives the number back. */
  lemma {:induction false} FormatEnUsRoundTrip(n: nat)
    ensures AllDigits(Keep(FormatEnUs(n), NotComma))
    ensures Value(Keep(FormatEnUs(n), NotComma)) == n
    ensures ParseInt(Keep(FormatEnUs(n), NotComma)) == Some(n)
  {
    var r := FormatEnUs(n);
    if n < 1000 {
      KeepAllKept(r, NotComma);
    } else {
      var a, g := FormatEnUs(n / 1000), Group(n % 1000);
      FormatEnUsRoundTrip(n / 1000);
      StripJoin(a, g);
      ValueAppend(Keep(a, NotComma), g);
      assert Pow10(|g|) == 1000;
      assert Value(Keep(r, NotComma)) == n / 1000 * 1000 + n % 1000;
    }
    assert Keep(r, NotComma) != [] by {
      assert r[0] != ',' && r[0] in r;
    }
  }

  lemma StripJoin(a: string, g: string)
    requires AllDigits(g)
    ensures Keep(a + "," + g, NotComma) == Keep(a, NotComma) + g
  {
    assert a + "," + g == a + ("," + g);
    KeepAppend(a, "," + g, NotComma);
    KeepAppend(",", g, NotComma);
    KeepAllKept(g, NotComma);
  }

  /** In a grouped string, keeping the digits and dropping the commas are the same. */
  lemma GroupedDigitsAreNonCommas(s: string)
    requires Grouped(s)
    ensures Keep(s, IsDigit) == Keep(s, NotComma)
  {
    KeepAgree(s, IsDigit, NotComma);
  }
}
