/**
 * `s.replace(/[^...]/g, "")` and `s.replace(/,/g, "")`: deleting every
 * character outside a character class. The three classes the calculators
 * use are defined here as named predicates.
 */
module TextFilter {

  /** The class `[0-9]` (JavaScript's `\d` is ASCII-only too). */
  predicate IsDigit(c: char) { '0' <= c <= '9' }

  /** The class `[0-9.]` kept by the percentage field. */
  predicate IsDigitOrDot(c: char) { IsDigit(c) || c == '.' }

  /** Everything but `,`: what `replace(/,/g, "")` keeps. */
  predicate NotComma(c: char) { c != ',' }

  predicate AllDigits(s: string) {
    forall i :: 0 <= i < |s| ==> IsDigit(s[i])
  }

  /** The characters of `s` that satisfy `keep`, in their original order. */
  function Keep(s: string, keep: char -> bool): (r: string)
    ensures |r| <= |s|
    ensures forall c :: c in r <==> c in s && keep(c)
    ensures forall i :: 0 <= i < |r| ==> keep(r[i])
  {
    if s == [] then []
    else if keep(s[0]) then [s[0]] + Keep(s[1..], keep)
    else Keep(s[1..], keep)
  }

  /** Filtering distributes over concatenation, so the kept characters keep their order. */
  lemma {:induction false} KeepAppend(a: string, b: string, keep: char -> bool)
    ensures Keep(a + b, keep) == Keep(a, keep) + Keep(b, keep)
  {
    if a == [] {
      assert a + b == b;
    } else {
      assert (a + b)[0] == a[0];
      assert (a + b)[1..] == a[1..] + b;
      KeepAppend(a[1..], b, keep);
    }
  }

  /** A string whose every character is kept passes through unchanged. */
  lemma {:induction false} KeepAllKept(s: string, keep: char -> bool)
    requires forall i :: 0 <= i < |s| ==> keep(s[i])
    ensures Keep(s, keep) == s
  {
    if s != [] {
      KeepAllKept(s[1..], keep);
    }
  }

  /** Two classes that agree on every character of `s` filter it alike. */
  lemma {:induction false} KeepAgree(s: string, p: char -> bool, q: char -> bool)
    requires forall i :: 0 <= i < |s| ==> p(s[i]) == q(s[i])
    ensures Keep(s, p) == Keep(s, q)
  {
    if s != [] {
      KeepAgree(s[1..], p, q);
    }
  }

  /** Filtering twice is filtering once. */
  lemma KeepIdempotent(s: string, keep: char -> bool)
    ensures Keep(Keep(s, keep), keep) == Keep(s, keep)
  {
    var r := Keep(s, keep);
    forall i | 0 <= i < |r| ensures keep(r[i]) {
      assert r[i] in r;
    }
    KeepAllKept(r, keep);
  }
}
