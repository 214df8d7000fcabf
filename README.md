# Overdue and settlement calculators, modelled in Dafny

The repository is a small browser application with two calculator forms.
The **overdue calculator** takes a monthly due amount and a number of
overdue days. It reports the average daily amount (1.099% of the due
amount), the overdue amount per day (1.5 times that) and the total overdue
amount (the per-day amount times the days). The **settlement calculator**
takes a principal and a settlement percentage and reports
`Math.round(principal * percentage / 100)`.

Each form has three layers, and each is modelled here:

1. **Keystroke normalisers.** An amount field keeps the digits of what was
   typed, parses them and shows them again with en-US grouping
   (`abc1,0a00` shows as `1,000`). The days field keeps the digits. The
   percentage field keeps digits and dots, and it does not stop a second
   dot.
2. **Schema rules** (zod). A field is either accepted with its number or
   rejected with the first rule it breaks: empty (`Required`), not a
   number (`Invalid`) or out of range (`OutOfRange`).
3. **`onSubmit`.** It computes the result from the accepted fields, then
   replaces the displayed result and increments `animationKey`.

Numbers are exact: Dafny's `real` is the rationals, so `1.099 / 100` is
exactly 0.01099. `Math.round(x)` is `(x + 0.5).Floor`, the nearest integer
with halves rounded up. Every displayed amount also has an integer closed
form, `RoundRatio(n, q) = (2n + q) div 2q`.

## Layout

- `Results` (results.dfy): `Option` and `Result`.
- `TextFilter` (text_filter.dfy): `s.replace(/[^…]/g, "")` as `Keep`, and the character classes.
- `JsNumber` (js_number.dfy): `parseInt`, `parseFloat` (to an exact `Decimal`) and `Math.round`.
- `EnUsFormat` (en_us_format.dfy): `Intl.NumberFormat("en-US").format` on naturals.
- `NumberField` (number_field.dfy): `formatNumberInput` and the amount schema. Both components have identical copies of these, so they are defined once.
- `OverdueCalculator` (overdue_calculator.dfy): the days filter, the days schema, the form, the formula and the component state.
- `SettlementCalculator` (settlement_calculator.dfy): the percentage filter, the percentage schema, the form, the formula and the component state.

Two consequences of the code that are easy to misread:

- **The overdue fields are not rounded stage by stage.** Each reported
  field is rounded from its own unrounded product
  (src/components/overdue-calculator.tsx:82-89), never from the previous
  rounded field. `TotalIsNotChainedRounding` shows the difference: for an
  amount of 100 over 2 days the total is 3, where rounding stage by stage
  would give 4.
- **The percentage field may hold several dots.** Its filter keeps every
  dot (src/components/settlement-calculator.tsx:152). `parseFloat` then
  reads `1.2.3` as 1.2, and the model does the same.

## Model

| member | source | states |
|---|---|---|
| TextFilter.Keep | src/components/overdue-calculator.tsx:102 | deleting every character outside a class: the result holds exactly the input's characters of that class and is no longer than the input |
| TextFilter.KeepAppend | src/components/overdue-calculator.tsx:165 | filtering distributes over concatenation, so kept characters stay in their original order |
| TextFilter.KeepIdempotent | src/components/settlement-calculator.tsx:152 | filtering an already filtered string changes nothing |
| JsNumber.Value | src/components/overdue-calculator.tsx:76 | the base-10 value of a digit string is below 10 to the power of its length |
| JsNumber.ValueAppend | src/components/overdue-calculator.tsx:76 | the value of a concatenation is the left part's value shifted by the right part's length, plus the right part's value |
| JsNumber.ValuePositive | src/components/overdue-calculator.tsx:42 | a digit string's value is above 0 exactly when one of its digits is not `0` |
| JsNumber.LeadingDigits | src/components/overdue-calculator.tsx:39 | the longest prefix made of digits: a prefix, all digits, followed by the end or a non-digit |
| JsNumber.ParseInt | src/components/overdue-calculator.tsx:39 | `parseInt` is NaN exactly when the string is empty or does not start with a digit; otherwise it is the value of the leading run of digits (`12a` reads as 12, `1.5` as 1) |
| JsNumber.ParseFloat | src/components/settlement-calculator.tsx:46 | `parseFloat` is NaN exactly when the string starts with neither a digit nor a dot followed by a digit |
| JsNumber.ParseFloatDecimal | src/components/settlement-calculator.tsx:73 | `w.f` followed by anything that does not go on with a digit reads as the decimal with digits `wf` and scale `|f|`, so a second dot ends the number |
| JsNumber.ParseFloatInteger | src/components/settlement-calculator.tsx:73 | a digit string followed by neither a digit nor a dot reads as that integer |
| JsNumber.Round | src/components/overdue-calculator.tsx:87-89 | `Math.round` gives the integer at most half above and less than half below its argument, so halves round up; never negative for a non-negative argument |
| JsNumber.RoundRatio | src/components/settlement-calculator.tsx:75 | the integer half-up rounding of `n / q`, bounded in integers on both sides |
| JsNumber.RoundOfRatio | src/components/settlement-calculator.tsx:75 | `Math.round` of the exact fraction `n / q` equals `(2n + q) div 2q` |
| EnUsFormat.Digits | src/components/overdue-calculator.tsx:106 | the plain decimal rendering is non-empty, all digits, has no leading zero and denotes `n` |
| EnUsFormat.FormatEnUs | src/components/overdue-calculator.tsx:106 | en-US grouping: every fourth character from the right is a comma and all the others are digits; the first character is a digit and is `0` only for zero |
| EnUsFormat.FormatEnUsRoundTrip | src/components/overdue-calculator.tsx:106 | stripping the commas from the grouped rendering gives digits that `parseInt` reads back as `n` |
| EnUsFormat.GroupedDigitsAreNonCommas | src/components/overdue-calculator.tsx:102 | in a grouped string, keeping the digits and deleting the commas give the same string |
| NumberField.FormatNumberInput | src/components/overdue-calculator.tsx:101-107 | `formatNumberInput` returns `""` exactly when the input has no digit, and otherwise a canonically grouped string |
| NumberField.FormatNumberInputValue | src/components/overdue-calculator.tsx:102-106 | the formatted amount with its commas stripped parses to the number that the input's digits spell |
| NumberField.FormatNumberInputIdempotent | src/components/settlement-calculator.tsx:90-96 | formatting a formatted amount changes nothing (the settlement component's copy is identical to the overdue one) |
| NumberField.FormatNumberInputExample | src/components/overdue-calculator.tsx:101-107 | `abc1,0a00` shows as `1,000`, and `1,000` stays `1,000` |
| NumberField.ValidateAmount | src/components/overdue-calculator.tsx:36-44 | amount schema, first failing rule: `Required` exactly for `""`; `Invalid` exactly when `parseInt` of the non-empty comma-stripped value is NaN; `OutOfRange` exactly when it is 0; an accepted amount is above 0, and it is the number `onSubmit` parses from the comma-stripped string |
| NumberField.ValidateAmountAccepts | src/components/settlement-calculator.tsx:34-42 | an amount is accepted exactly when it is non-empty, starts with a digit once commas are stripped, and has a non-zero digit in that leading digit run |
| NumberField.ValidateAmountRejects | src/components/overdue-calculator.tsx:38-43 | `""` fails `Required`, `,` fails `Invalid`, and `0` and `0,000` fail `OutOfRange` |
| NumberField.ValidateFormattedAmount | src/components/overdue-calculator.tsx:137-142 | what an amount field holds after a keystroke is accepted exactly when the typed text has a non-zero digit, and the number accepted is the one its digits spell |
| NumberField.ValidateGrouped | src/components/settlement-calculator.tsx:37-42 | the grouped rendering of any positive number is accepted with that number |
| NumberField.DigitsOfThousand | src/components/overdue-calculator.tsx:106 | 1000 renders as `1,000` |
| NumberField.GroupedMillions | src/components/settlement-calculator.tsx:95 | 1000000 renders as `1,000,000` and 10000000 as `10,000,000` |
| OverdueCalculator.FilterDays | src/components/overdue-calculator.tsx:165 | the days filter returns only digits, exactly the digits of the input |
| OverdueCalculator.FilterDaysKeepsOrder | src/components/overdue-calculator.tsx:164-167 | the days filter keeps the digits in their order, leaves a digit string unchanged, and is idempotent |
| OverdueCalculator.ValidateDays | src/components/overdue-calculator.tsx:45-53 | days schema: `Required` exactly for `""`; `Invalid` exactly for a non-empty string that is not all digits; accepted exactly for an all-digit string with a non-zero digit, and the accepted value is its `parseInt` |
| OverdueCalculator.ValidateDaysRejects | src/components/overdue-calculator.tsx:47-52 | `""` fails `Required`, `0` and `00` fail `OutOfRange`, and `1.5` fails `Invalid` |
| OverdueCalculator.ValidateFilteredDays | src/components/overdue-calculator.tsx:45-53 | what the days field holds after a keystroke is accepted exactly when the typed text has a non-zero digit |
| OverdueCalculator.ValidateForm | src/components/overdue-calculator.tsx:35-54 | the form is accepted exactly when both fields are, and then carries the two values the field rules accepted; otherwise each field that fails reports the error its own rule gives and a passing field reports none |
| OverdueCalculator.ValidateFormExample | src/components/overdue-calculator.tsx:35-54 | the form `1,000,000` / `5` is accepted with 1000000 and 5 |
| OverdueCalculator.Compute | src/components/overdue-calculator.tsx:79-90 | the three fields are the half-up roundings of `a·1099/100000`, `a·3297/200000` and `a·d·3297/200000`, each taken from its own unrounded product, and none is negative |
| OverdueCalculator.ExactProducts | src/components/overdue-calculator.tsx:82-89 | `Math.round` of each real intermediate equals its integer closed form |
| OverdueCalculator.ComputeExample | src/components/overdue-calculator.tsx:82-89 | a due amount of 1,000,000 over 5 days gives 10990, 16485 and 82425 |
| OverdueCalculator.TotalIsNotChainedRounding | src/components/overdue-calculator.tsx:83-89 | for 100 over 2 days the fields are 1, 2 and 3, while rounding stage by stage would give a total of 4 |
| OverdueCalculator.OverdueCalculatorState.constructor | src/components/overdue-calculator.tsx:63-64 | no result is shown and the animation key starts at 0 |
| OverdueCalculator.OverdueCalculatorState.Submit | src/components/overdue-calculator.tsx:75-92 | a submission that fails validation leaves the state unchanged; a valid one replaces the result with `Compute` of the validated values and increments `animationKey` by exactly 1 |
| SettlementCalculator.FilterPercentage | src/components/settlement-calculator.tsx:152 | the percentage filter returns only digits and dots, exactly those of the input |
| SettlementCalculator.FilterPercentageKeepsOrder | src/components/settlement-calculator.tsx:151-154 | the percentage filter keeps digits and dots in their order, leaves such a string unchanged, and is idempotent |
| SettlementCalculator.FilterPercentageExample | src/components/settlement-calculator.tsx:152 | `1.2.3` passes the filter with both dots, and `12,5%` becomes `125` |
| SettlementCalculator.PercentageRange | src/components/settlement-calculator.tsx:49 | a decimal `m / 10^k` is in (0, 100] exactly when `0 < m <= 100·10^k` |
| SettlementCalculator.ValidatePercentage | src/components/settlement-calculator.tsx:43-51 | percentage schema: `Required` exactly for `""`; `Invalid` exactly when `parseFloat` is NaN; accepted exactly when the parsed decimal is in (0, 100], and the accepted value is the `parseFloat` result that `onSubmit` uses |
| SettlementCalculator.ValidatePercentageExamples | src/components/settlement-calculator.tsx:45-50 | `""` fails `Required`, `.` fails `Invalid`, and `0` and `100.01` fail `OutOfRange`; `100` is accepted, and `1.2.3` is accepted as 1.2 |
| SettlementCalculator.ValidateForm | src/components/settlement-calculator.tsx:33-52 | the form is accepted exactly when both fields are, and then carries the two values the field rules accepted (so `onSubmit` computes with the decimal the range rule checked); otherwise each field that fails reports the error its own rule gives and a passing field reports none |
| SettlementCalculator.ValidateFormExample | src/components/settlement-calculator.tsx:33-52 | the form `10,000,000` / `30` is accepted with 10000000 and 30 |
| SettlementCalculator.Compute | src/components/settlement-calculator.tsx:75 | the settlement amount is never negative, is at most the principal for a percentage of at most 100, and is exactly the principal at 100 |
| SettlementCalculator.AmountBounds | src/components/settlement-calculator.tsx:75 | `Math.round(p·(s/100))` is between 0 and `p` for `s` in [0, 100], and equals `p` at 100 |
| SettlementCalculator.ComputeExact | src/components/settlement-calculator.tsx:73-75 | for a parsed percentage `m / 10^k` the amount is the half-up rounding of `p·m / (100·10^k)` |
| SettlementCalculator.ComputeExample | src/components/settlement-calculator.tsx:75 | a principal of 10,000,000 at 30% settles for 3,000,000 |
| SettlementCalculator.SettlementCalculatorState.constructor | src/components/settlement-calculator.tsx:59-60 | no result is shown and the animation key starts at 0 |
| SettlementCalculator.SettlementCalculatorState.Submit | src/components/settlement-calculator.tsx:71-81 | a submission that fails validation leaves the state unchanged; a valid one replaces the result with `Compute` of the validated values and increments `animationKey` by exactly 1 |

## Left out

- Markup, icons, cards and animation classes: presentation only. The
  animation key is modelled only as the counter it is.
- Navigation, routing and layout (src/components/header.tsx,
  src/app/layout.tsx, src/app/page.tsx, src/app/settlement/page.tsx) hold
  no domain logic.
- `formatCurrency` (`Intl.NumberFormat("vi-VN", { currency: "VND" })`) is
  display-only formatting done by a foreign locale library.
- The react-hook-form and zodResolver wiring. Live re-validation on every
  change is the same pure validator applied again. zod may collect several
  failing rules; the model keeps only the first, which is the one the form
  shows. The Vietnamese message texts are named by their rule and are not
  reproduced.
- IEEE-754 behaviour. All arithmetic is exact, so the model does not
  capture halfway cases that binary floating point decides differently
  (`1.099 / 100` is not exactly 0.01099). It also does not capture
  `parseFloat` rounding of long decimals or precision loss above 2^53.
- JsNumber.ParseInt: does not model leading whitespace, a sign or a `0x`
  prefix. After the keystroke filters, the fields cannot hold these.
- JsNumber.ParseFloat: does not model leading whitespace, a sign, an
  exponent or `Infinity`. After the keystroke filters, the fields cannot
  hold these.
- EnUsFormat.FormatEnUs: formats exact naturals. It does not model how
  `Intl` renders numbers too large for a double.
- The browser events around `handleSubmit` (focus, submission flags).
  Submit models only what `onSubmit` changes.
