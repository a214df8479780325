# Loan calculator EMI engine, modelled in Dafny

The `LoanCalculator` component takes three inputs: a loan amount, an annual interest
rate in percent and a term in months. From them it computes the equated monthly
instalment (EMI), the total interest and the total payment. The calculation runs each
time an input changes. When the inputs are unusable, the three results are cleared
together and the result panel shows the placeholder "Enter valid values to see
results".

The project has three modules:

- `Power` (`power.dfy`): whole-number powers over the reals. This is the part of
  `Math.pow` the formula uses. It also holds the geometric sum and the power sum
  `v + v^2 + ... + v^n`, with the lemmas about them.
- `EmiEngine` (`emi_engine.dfy`): the pure logic.
  - The parsed inputs are modelled as `Option<real>`, where `None` stands for NaN.
    The term is an `Option<int>`.
  - The guard `Accepts` follows the source's falsiness tests exactly.
  - `MonthlyRate` is `annual / 12 / 100`.
  - `Emi` is the closed form `P r (1+r)^n / ((1+r)^n - 1)`.
  - `CalculateEmi` returns either `Unavailable` or all three figures. A figure is
    `Finite(x)`, or `NonFinite` for the Infinity that a zero denominator produces.
  - Around these sit the lemmas: the guard's exact rejection set, the totals, the
    only way to divide by zero, the annuity identity (`n` discounted instalments repay
    the principal), positivity, linearity and monotonicity in the principal,
    monotonicity in the rate, the sign of the total interest, and three worked
    scenarios.
- `LoanCalculatorComponent` (`loan_calculator.dfy`): the stateful component.
  - A class holds the three inputs and the three nullable results.
  - `CalculateEMI` mirrors the source's early-return branch.
  - Every setter re-runs the calculation, as the change effect does.
  - The invariant `Valid()` says the results are all-or-nothing and equal to
    `CalculateEmi` of the current inputs. The constructor and every setter
    re-establish it without assuming it beforehand.
  - The functions give the slider positions (the parsed input, or a fallback when
    it is falsy) and the result panel.

How the source behaves, and how the model follows it:

- The guard rejects the rate only when it is falsy (NaN or zero), so a negative rate
  is accepted. One consequence follows. A typed annual rate of -2400% over an even
  number of months makes `(1+r)^n == 1`, and the code then divides by zero and stores
  "-Infinity". `NonFiniteIff` proves this is the only accepted input that does so.
  The guard has no test `annualRate <= 0`, so the model has none either.
- Take the default inputs: 100000 at 12% a year over 24 months. The code's formula
  gives an instalment of 4707.347…, a total payment of 112976.333… and a total
  interest of 12976.333… (`ScenarioDefaultLoan`), which `toFixed(2)` shows as
  4707.35, 112976.33 and 12976.33. A total payment of 112976.47 does not follow from
  the formula.
- The slider fallbacks are 100000, 10 and 12. They differ from the initial field
  values 100000, 12 and 24. The model keeps both sets as the source has them.

## Model

| member | source | states |
|---|---|---|
| EmiEngine.Accepts | src/Component/LoanCalculator.jsx:27 | The guard passes exactly when the principal is a positive number, the rate is a nonzero number and the term is a positive number; the rejection set is restated by UnavailableIff and NegativeRateAccepted. |
| EmiEngine.Emi | src/Component/LoanCalculator.jsx:36-37 | The formula divides by zero, giving a non-finite figure, exactly when there are no months, the monthly rate is zero, or the rate is −2 (−2400% a year) over an even number of months; its values are specified by EmiRepaysPrincipal, EmiIsPrincipalOverPresentValue, EmiPositive and the monotonicity lemmas. |
| EmiEngine.Instalment | src/Component/LoanCalculator.jsx:36-37 | For a nonzero denominator, the quotient times (1 + r)^n − 1 is the numerator P · r · (1 + r)^n. |
| EmiEngine.CalculateEmi | src/Component/LoanCalculator.jsx:22-40 | The three figures are available exactly when the guard accepts, and then the totals are finite exactly when the instalment is; the figures themselves are specified by AcceptedTotals and NonFiniteIff. |
| EmiEngine.UnavailableIff | src/Component/LoanCalculator.jsx:27-32 | The result is unavailable exactly when the principal is NaN, zero or negative, or the rate is NaN or zero, or the term is NaN, zero or negative (both directions). |
| EmiEngine.NegativeRateAccepted | src/Component/LoanCalculator.jsx:27 | A negative rate with a positive principal and term passes the guard, because the rate is only tested for falsiness. |
| EmiEngine.MonthlyRate | src/Component/LoanCalculator.jsx:34 | The monthly rate times 1200 is the annual percentage. |
| EmiEngine.AcceptedTotals | src/Component/LoanCalculator.jsx:34-40 | On accepted inputs all three figures are present. The instalment is the formula at rate annual/1200. The totals are finite exactly when the instalment is. Then total payment = emi · n and total interest = total payment − principal. |
| EmiEngine.NonFiniteIff | src/Component/LoanCalculator.jsx:36-39 | On accepted inputs the denominator is zero, and the instalment, the total payment and the total interest are non-finite, exactly when the annual rate is −2400 and the term is even. |
| EmiEngine.EmiOverOneMonth | src/Component/LoanCalculator.jsx:34-37 | For n = 1 the instalment is principal · (1 + r). |
| EmiEngine.EmiRepaysPrincipal | src/Component/LoanCalculator.jsx:36-37 | For 1 + r > 0 and r ≠ 0, the instalment is finite, and n instalments discounted at r sum to exactly the principal. |
| EmiEngine.EmiIsPrincipalOverPresentValue | src/Component/LoanCalculator.jsx:36-37 | The instalment equals the principal divided by the positive present value of n unit payments. |
| EmiEngine.EmiPositive | src/Component/LoanCalculator.jsx:36-37 | For a positive principal, 1 + r > 0, r ≠ 0 and n ≥ 1, the denominator is nonzero and the instalment is positive. |
| EmiEngine.EmiLinearInPrincipal | src/Component/LoanCalculator.jsx:36-37 | Scaling the principal by k scales the instalment by k. |
| EmiEngine.EmiStrictlyIncreasingInPrincipal | src/Component/LoanCalculator.jsx:36-37 | With the rate and term fixed, a larger principal gives a strictly larger instalment. |
| EmiEngine.EmiStrictlyIncreasingInRate | src/Component/LoanCalculator.jsx:34-37 | With a positive principal and the term fixed, a larger monthly rate (above −1, zero excluded) gives a strictly larger instalment. |
| EmiEngine.EmiExceedsInterestOnly | src/Component/LoanCalculator.jsx:36-37 | At a positive rate the instalment exceeds the interest-only payment P·r. |
| EmiEngine.TotalPaymentVersusPrincipal | src/Component/LoanCalculator.jsx:36-39 | n instalments add up to more than the principal at a positive rate, and to less at a negative rate above −100% a month. |
| EmiEngine.TotalInterestSign | src/Component/LoanCalculator.jsx:27-40 | For accepted inputs with an annual rate above −1200, the total interest is finite, positive exactly when the rate is positive, and negative exactly when the rate is negative. |
| EmiEngine.ScenarioDefaultLoan | src/Component/LoanCalculator.jsx:34-40 | 100000 at 12% over 24 months: instalment in (4707.34, 4707.35), total payment in (112976.33, 112976.34), total interest in (12976.33, 12976.34). |
| EmiEngine.ScenarioHighRateLongTerm | src/Component/LoanCalculator.jsx:34-40 | 500000 at 36% over 360 months: the instalment is positive and finite, and the total interest exceeds half the total payment. |
| EmiEngine.ScenarioOneMonth | src/Component/LoanCalculator.jsx:34-40 | 1000 at 1% over 1 month: the instalment and total payment are exactly 1000 + 5/6, and the interest is exactly 5/6. |
| LoanCalculatorComponent.SliderValue | src/Component/LoanCalculator.jsx:167 | The slider expression `Number(x)` or its fallback: the fallback when the input is NaN or zero, and the input value otherwise. |
| LoanCalculatorComponent.TermAsNumber | src/Component/LoanCalculator.jsx:237 | The whole-number term read as a number: NaN stays NaN, a value keeps its value, and it is falsy exactly when the term is. |
| LoanCalculatorComponent.LoanCalculator.LoanAmountSlider | src/Component/LoanCalculator.jsx:167 | The slider shows 100000 when the loan amount is NaN or zero, and the loan amount otherwise. |
| LoanCalculatorComponent.LoanCalculator.InterestRateSlider | src/Component/LoanCalculator.jsx:204 | The slider shows 10 when the rate is NaN or zero, and the rate otherwise. |
| LoanCalculatorComponent.LoanCalculator.LoanTermSlider | src/Component/LoanCalculator.jsx:237 | The slider shows 12 when the term is NaN or zero, and the term otherwise. |
| LoanCalculatorComponent.LoanCalculator.constructor | src/Component/LoanCalculator.jsx:14-20 | The inputs start at 100000, 12 and 24. After the mount effect, the results are the calculation on those inputs. |
| LoanCalculatorComponent.LoanCalculator.CalculateEMI | src/Component/LoanCalculator.jsx:22-45 | Whatever the prior state, afterwards the three results are all set or all cleared, and they equal the calculation on the unchanged inputs. They are cleared exactly when the guard rejects. |
| LoanCalculatorComponent.LoanCalculator.SetLoanAmount | src/Component/LoanCalculator.jsx:155-170 | The loan amount takes the new value and the other inputs are unchanged. The results are recomputed. The slider shows 100000 for NaN or zero, and the value otherwise. |
| LoanCalculatorComponent.LoanCalculator.SetInterestRate | src/Component/LoanCalculator.jsx:191-208 | The same for the rate, with slider fallback 10. |
| LoanCalculatorComponent.LoanCalculator.SetLoanTerm | src/Component/LoanCalculator.jsx:225-241 | The same for the term, with slider fallback 12. |
| LoanCalculatorComponent.LoanCalculator.SlideLoanAmount | src/Component/LoanCalculator.jsx:168-170 | A slider value in [1000, 500000] becomes the field's value, and the slider then shows that same value. The results are recomputed. |
| LoanCalculatorComponent.LoanCalculator.SlideInterestRate | src/Component/LoanCalculator.jsx:205 | The same for a rate in [1, 36]. |
| LoanCalculatorComponent.LoanCalculator.SlideLoanTerm | src/Component/LoanCalculator.jsx:238 | The same for a term in [1, 360]. |
| LoanCalculatorComponent.LoanCalculator.ResultPanel | src/Component/LoanCalculator.jsx:260-317 | On a valid component the placeholder shows exactly when the guard rejects the current inputs. Otherwise the panel shows the calculation's three figures. |

## Left out

- Parsing with `Number(text)`. Each input is modelled as the number its text parses to: `None` for NaN, and zero for the empty field. Texts that parse to ±Infinity are not modelled.
- Fractional terms. A typed term such as "2.5" needs `Math.pow` with a real exponent, so the term is modelled as a whole number.
- IEEE double arithmetic. The model computes over exact reals. It does not capture rounding or overflow, nor the case where `1 + r` rounds to 1 for a tiny rate, which the code would also turn into Infinity.
- `toFixed(2)`. The source stores the three results as two-decimal strings. The model stores the unrounded values.
- `toLocaleString()` currency formatting and the field echoes under each slider (lines 177-179, 211-213, 244-246). These are display formatting.
- React's render timing. In the source, an input change is committed and rendered first, and the effect that recomputes the results runs after that render. The model runs the calculation inside each setter, so it does not model the one render that shows the previous results beside the new input. For the same reason, the constructor does not model the first render before the mount effect, whose results are all null.
- The slider widget's own clamping and step snapping. `SlideLoanAmount`, `SlideInterestRate` and `SlideLoanTerm` require a value inside the slider's range, because the widget reports only such values.
- JSX layout, the card and label primitives, icons, framer-motion animation variants and the `styled(Slider)` theme (lines 51-119 and 121-324 apart from the panel choice). These are presentation only.
- EmiStrictlyIncreasingInRate: states monotonicity only for monthly rates above −1 (annual above −1200%). Below that, `1 + r` is zero or negative, the present-value argument of the proof does not apply, and that range is not covered.
- TotalInterestSign: requires an annual rate above −1200%. Below that, `1 + r` is zero or negative, and that range is not covered.
