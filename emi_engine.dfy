/** The EMI (equated monthly instalment) engine of the loan calculator: the
    input guard, the closed-form amortisation formula and the three derived
    figures, written as pure functions over the parsed inputs. */
module EmiEngine {
  import opened Power

  datatype Option<T> = None | Some(value: T)

  /** A derived amount. `NonFinite` stands for the infinite value that a
      division by a zero denominator yields; over the reals no other value
      is non-finite. On accepted inputs the numerator there is -2P, so the
      code's value is -Infinity. */
  datatype Figure = Finite(value: real) | NonFinite

  /** The result of one calculation: all three figures, or none of them. */
  datatype Summary =
    | Unavailable
    | Available(emi: Figure, totalInterest: Figure, totalPayment: Figure)

  /** A parsed number is falsy when it is NaN (None) or zero. */
  predicate IsFalsy(x: Option<real>)
  {
    x.None? || x.value == 0.0
  }

  /** The same test for the parsed loan term. */
  predicate IsFalsyTerm(x: Option<int>)
  {
    x.None? || x.value == 0
  }

  /** The guard of the calculation, tested left to right: a falsy or
      non-positive principal, a falsy rate, or a falsy or non-positive term
      stops it. The rate is tested for falsiness only, so a negative rate
      passes. */
  predicate Accepts(principal: Option<real>, annualRate: Option<real>, term: Option<int>)
    ensures Accepts(principal, annualRate, term) <==>
      && principal.Some? && principal.value > 0.0
      && annualRate.Some? && annualRate.value != 0.0
      && term.Some? && term.value > 0
  {
    !(IsFalsy(principal) || principal.value <= 0.0
      || IsFalsy(annualRate)
      || IsFalsyTerm(term) || term.value <= 0)
  }

  /** The monthly rate as a fraction: the annual percentage over 12 and over 100. */
  function MonthlyRate(annualRate: real): (rate: real)
    ensures rate * 1200.0 == annualRate
  {
    annualRate / 12.0 / 100.0
  }

  /** The closed-form instalment P r (1 + r)^n / ((1 + r)^n - 1), where the
      growth factor (1 + r)^n is `Math.pow(1 + rate, n)`; a zero
      denominator gives a non-finite instalment. */
  function Emi(principal: real, rate: real, n: nat): (e: Figure)
    ensures e.NonFinite? <==> n == 0 || rate == 0.0 || (rate == -2.0 && n % 2 == 0)
  {
    GrowthIsOneIff(rate, n);
    var growth := Pow(1.0 + rate, n);
    if growth - 1.0 == 0.0 then NonFinite
    else Finite(Instalment(principal, rate, growth))
  }

  /** The growth factor (1 + r)^n is one, so the denominator is zero,
      exactly for no months, a zero rate, or r == -2 over an even number of months. */
  lemma GrowthIsOneIff(rate: real, n: nat)
    ensures Pow(1.0 + rate, n) == 1.0 <==> n == 0 || rate == 0.0 || (rate == -2.0 && n % 2 == 0)
  {
    if n >= 1 {
      PowIsOneIff(1.0 + rate, n);
    }
  }

  /** The quotient of the formula for a given growth factor: the amount
      that, times the denominator (1 + r)^n - 1, gives the numerator P r (1 + r)^n. */
  function Instalment(principal: real, rate: real, growth: real): (q: real)
    requires growth - 1.0 != 0.0
    ensures q * (growth - 1.0) == principal * rate * growth
  {
    principal * rate * growth / (growth - 1.0)
  }

  /** A figure multiplied by a real factor; a non-finite figure stays non-finite. */
  function Times(f: Figure, k: real): Figure
  {
    match f
    case Finite(x) => Finite(x * k)
    case NonFinite => NonFinite
  }

  /** A finite amount subtracted from a figure. */
  function Minus(f: Figure, x: real): Figure
  {
    match f
    case Finite(y) => Finite(y - x)
    case NonFinite => NonFinite
  }

  /** The calculation: the guard, then the instalment, the total payment
      (instalment times months) and the total interest (total payment less
      principal). */
  function CalculateEmi(principal: Option<real>, annualRate: Option<real>, term: Option<int>): (s: Summary)
    ensures s.Available? <==> Accepts(principal, annualRate, term)
    ensures s.Available? ==>
      (s.emi.Finite? <==> s.totalPayment.Finite?) && (s.emi.Finite? <==> s.totalInterest.Finite?)
  {
    if !Accepts(principal, annualRate, term) then Unavailable
    else
      var n := term.value as nat;
      var rate := MonthlyRate(annualRate.value);
      var emi := Emi(principal.value, rate, n);
      var totalPay := Times(emi, n as real);
      var totalInt := Minus(totalPay, principal.value);
      Available(emi, totalInt, totalPay)
  }

  // ---------------------------------------------------------------------
  // The guard

  /** The calculation is unavailable exactly when the principal is NaN, zero
      or negative, or the rate is NaN or zero, or the term is NaN, zero or
      negative. A negative rate on its own never makes it unavailable. */
  lemma UnavailableIff(principal: Option<real>, annualRate: Option<real>, term: Option<int>)
    ensures CalculateEmi(principal, annualRate, term).Unavailable? <==>
      ((principal.None? || principal.value <= 0.0)
       || (annualRate.None? || annualRate.value == 0.0)
       || (term.None? || term.value <= 0))
  {
  }

  /** A negative rate with a positive principal and term is accepted. */
  lemma NegativeRateAccepted(principal: real, annualRate: real, term: int)
    requires principal > 0.0 && annualRate < 0.0 && term > 0
    ensures CalculateEmi(Some(principal), Some(annualRate), Some(term)).Available?
  {
  }

  // ---------------------------------------------------------------------
  // The totals

  /** On accepted inputs the instalment is the formula at the monthly rate,
      total payment is instalment times months and total interest is total
      payment less principal; the two totals are finite exactly when the
      instalment is. */
  lemma AcceptedTotals(principal: Option<real>, annualRate: Option<real>, term: Option<int>)
    requires Accepts(principal, annualRate, term)
    ensures var s := CalculateEmi(principal, annualRate, term);
      && s.Available?
      && s.emi == Emi(principal.value, annualRate.value / 1200.0, term.value as nat)
      && (s.emi.Finite? <==> s.totalPayment.Finite?)
      && (s.emi.Finite? <==> s.totalInterest.Finite?)
      && (s.emi.Finite? ==>
            && s.totalPayment.value == s.emi.value * (term.value as real)
            && s.totalInterest.value == s.totalPayment.value - principal.value)
  {
    var r := MonthlyRate(annualRate.value);
    assert r == annualRate.value / 1200.0;
  }

  /** On accepted inputs the one way to divide by zero is a rate of -2400%
      a year (1 + r == -1) over an even number of months; every other accepted
      input gives finite figures. */
  lemma NonFiniteIff(principal: Option<real>, annualRate: Option<real>, term: Option<int>)
    requires Accepts(principal, annualRate, term)
    ensures var s := CalculateEmi(principal, annualRate, term);
      && s.Available?
      && (s.emi.NonFinite? <==> annualRate.value == -2400.0 && term.value % 2 == 0)
      && (s.totalPayment.NonFinite? <==> s.emi.NonFinite?)
      && (s.totalInterest.NonFinite? <==> s.emi.NonFinite?)
  {
    var n := term.value as nat;
    var rate := MonthlyRate(annualRate.value);
    PowIsOneIff(1.0 + rate, n);
  }

  // ---------------------------------------------------------------------
  // The formula

  /** Over a single month the instalment is the principal plus one month's interest. */
  lemma EmiOverOneMonth(principal: real, rate: real)
    requires rate != 0.0
    ensures Emi(principal, rate, 1) == Finite(principal * (1.0 + rate))
  {
    var g := 1.0 + rate;
    assert Pow(g, 1) == g;
    InstalmentAtOnePeriod(principal, rate);
  }

  /** The quotient at growth factor 1 + r is the principal grown by one period. */
  lemma InstalmentAtOnePeriod(principal: real, rate: real)
    requires rate != 0.0
    ensures Instalment(principal, rate, 1.0 + rate) == principal * (1.0 + rate)
  {
    var g := 1.0 + rate;
    assert g - 1.0 == rate;
    assert principal * rate * g / rate == principal * g;
  }

  /** The algebra behind the annuity identity, on plain reals. */
  lemma AnnuityAlgebra(p: real, r: real, growth: real, discount: real, sum: real)
    requires growth * discount == sum
    requires growth - 1.0 == r * sum
    requires r != 0.0 && sum != 0.0
    ensures growth - 1.0 != 0.0
    ensures Instalment(p, r, growth) * discount == p
  {
    var e := p * r * growth / (growth - 1.0);
    assert e * (growth - 1.0) == p * r * growth;
    assert e * r * sum == p * r * growth;
    assert r * (e * sum) == r * (p * growth);
    assert e * sum == p * growth;
    assert e * growth * discount == p * growth;
    assert growth != 0.0;
  }

  /** The instalment repays the loan: for any rate above -100% a month other
      than zero, n instalments discounted back at the monthly rate are worth
      exactly the principal, `emi * (1/(1+r) + ... + 1/(1+r)^n) == P`. */
  lemma EmiRepaysPrincipal(principal: real, rate: real, n: nat)
    requires 1.0 + rate > 0.0 && rate != 0.0
    requires n >= 1
    ensures Emi(principal, rate, n).Finite?
    ensures Emi(principal, rate, n).value * PowerSum(1.0 / (1.0 + rate), n) == principal
  {
    var g := 1.0 + rate;
    var growth, discount, sum := Pow(g, n), PowerSum(1.0 / g, n), GeometricSum(g, n);
    PowTimesPowerSumOfInverse(g, n);
    GeometricSumClosedForm(g, n);
    GeometricSumPositive(g, n);
    assert g - 1.0 == rate;
    assert growth - 1.0 == rate * sum;
    AnnuityAlgebra(principal, rate, growth, discount, sum);
  }

  /** The instalment is the principal divided by the present value of n unit payments. */
  lemma EmiIsPrincipalOverPresentValue(principal: real, rate: real, n: nat)
    requires 1.0 + rate > 0.0 && rate != 0.0
    requires n >= 1
    ensures PowerSum(1.0 / (1.0 + rate), n) > 0.0
    ensures Emi(principal, rate, n) == Finite(principal / PowerSum(1.0 / (1.0 + rate), n))
  {
    var d := PowerSum(1.0 / (1.0 + rate), n);
    PowerSumPositive(1.0 / (1.0 + rate), n);
    EmiRepaysPrincipal(principal, rate, n);
    QuotientOf(Emi(principal, rate, n).value, d, principal);
  }

  /** The instalment is linear in the principal. */
  lemma EmiLinearInPrincipal(principal: real, k: real, rate: real, n: nat)
    ensures Emi(k * principal, rate, n) == Times(Emi(principal, rate, n), k)
  {
    var growth := Pow(1.0 + rate, n);
    if growth - 1.0 != 0.0 {
      InstalmentLinear(principal, k, rate, growth);
    }
  }

  /** The quotient of the formula is linear in the principal. */
  lemma InstalmentLinear(principal: real, k: real, rate: real, growth: real)
    requires growth - 1.0 != 0.0
    ensures Instalment(k * principal, rate, growth) == Instalment(principal, rate, growth) * k
  {
    var x := principal * rate * growth;
    assert k * principal * rate * growth == k * x;
    ScaleQuotient(k, x, growth - 1.0);
  }

  /** A positive principal at a rate above -100% a month (other than zero) gives a positive instalment. */
  lemma EmiPositive(principal: real, rate: real, n: nat)
    requires principal > 0.0
    requires 1.0 + rate > 0.0 && rate != 0.0
    requires n >= 1
    ensures Emi(principal, rate, n).Finite? && Emi(principal, rate, n).value > 0.0
  {
    EmiIsPrincipalOverPresentValue(principal, rate, n);
  }

  /** Holding rate and term fixed, a larger principal gives a strictly larger instalment. */
  lemma EmiStrictlyIncreasingInPrincipal(p1: real, p2: real, rate: real, n: nat)
    requires p1 < p2
    requires 1.0 + rate > 0.0 && rate != 0.0
    requires n >= 1
    ensures Emi(p1, rate, n).Finite? && Emi(p2, rate, n).Finite?
    ensures Emi(p1, rate, n).value < Emi(p2, rate, n).value
  {
    var d := PowerSum(1.0 / (1.0 + rate), n);
    EmiIsPrincipalOverPresentValue(p1, rate, n);
    EmiIsPrincipalOverPresentValue(p2, rate, n);
    assert p1 / d < p2 / d;
  }

  /** Holding a positive principal and the term fixed, a larger monthly rate
      gives a strictly larger instalment (over rates above -100% a month,
      zero excluded). */
  lemma EmiStrictlyIncreasingInRate(principal: real, r1: real, r2: real, n: nat)
    requires principal > 0.0
    requires -1.0 < r1 < r2 && r1 != 0.0 && r2 != 0.0
    requires n >= 1
    ensures Emi(principal, r1, n).Finite? && Emi(principal, r2, n).Finite?
    ensures Emi(principal, r1, n).value < Emi(principal, r2, n).value
  {
    var v1, v2 := 1.0 / (1.0 + r1), 1.0 / (1.0 + r2);
    OverSmallerDenominator(1.0, 1.0 + r2, 1.0 + r1);
    PowerSumStrictlyIncreasingInBase(v2, v1, n);
    var d1, d2 := PowerSum(v1, n), PowerSum(v2, n);
    EmiIsPrincipalOverPresentValue(principal, r1, n);
    EmiIsPrincipalOverPresentValue(principal, r2, n);
    assert 0.0 < d2 < d1;
    OverSmallerDenominator(principal, d1, d2);
  }

  /** At a positive rate the instalment exceeds the interest-only payment P r. */
  lemma EmiExceedsInterestOnly(principal: real, rate: real, n: nat)
    requires principal > 0.0 && rate > 0.0
    requires n >= 1
    ensures Emi(principal, rate, n).Finite? && Emi(principal, rate, n).value > principal * rate
  {
    var growth := Pow(1.0 + rate, n);
    PowAboveOne(1.0 + rate, n);
    InstalmentAboveInterestOnly(principal, rate, growth);
  }

  /** With a growth factor above one, the quotient exceeds P r. */
  lemma InstalmentAboveInterestOnly(principal: real, rate: real, growth: real)
    requires principal * rate > 0.0 && growth > 1.0
    ensures Instalment(principal, rate, growth) > principal * rate
  {
    var q := growth / (growth - 1.0);
    OverOneLess(growth);
    ScaleQuotient(principal * rate, growth, growth - 1.0);
    assert principal * rate * growth / (growth - 1.0) == q * (principal * rate);
    MulStrictlyIncreasing(principal * rate, 1.0, q);
  }

  /** The total paid exceeds the principal exactly when the rate is positive:
      for a positive principal and a rate above -100% a month (zero
      excluded), n instalments sum to more than P at a positive rate and to
      less than P at a negative one. */
  lemma TotalPaymentVersusPrincipal(principal: real, rate: real, n: nat)
    requires principal > 0.0
    requires 1.0 + rate > 0.0 && rate != 0.0
    requires n >= 1
    ensures Emi(principal, rate, n).Finite?
    ensures rate > 0.0 ==> Emi(principal, rate, n).value * (n as real) > principal
    ensures rate < 0.0 ==> Emi(principal, rate, n).value * (n as real) < principal
  {
    var v := 1.0 / (1.0 + rate);
    var d := PowerSum(v, n);
    EmiRepaysPrincipal(principal, rate, n);
    EmiPositive(principal, rate, n);
    var e := Emi(principal, rate, n).value;
    assert e * d == principal;
    if rate > 0.0 {
      assert 0.0 < v < 1.0;
      PowerSumBelowCount(v, n);
      assert e * d < e * (n as real);
    } else {
      assert v > 1.0;
      PowerSumAboveCount(v, n);
      assert e * d > e * (n as real);
    }
  }

  /** On accepted inputs with an annual rate above -1200%, the total
      interest is positive exactly when the rate is, and negative exactly
      when the rate is. */
  lemma TotalInterestSign(principal: Option<real>, annualRate: Option<real>, term: Option<int>)
    requires Accepts(principal, annualRate, term)
    requires annualRate.value > -1200.0
    ensures var s := CalculateEmi(principal, annualRate, term);
      && s.Available? && s.totalInterest.Finite?
      && (s.totalInterest.value > 0.0 <==> annualRate.value > 0.0)
      && (s.totalInterest.value < 0.0 <==> annualRate.value < 0.0)
  {
    var rate := MonthlyRate(annualRate.value);
    TotalPaymentVersusPrincipal(principal.value, rate, term.value as nat);
  }

  // ---------------------------------------------------------------------
  // Worked scenarios

  /** 100000 at 12% a year over 24 months: a monthly rate of 1%, an instalment
      of about 4707.35, about 112976.33 paid and about 12976.33 of interest. */
  lemma ScenarioDefaultLoan()
    ensures var s := CalculateEmi(Some(100000.0), Some(12.0), Some(24));
      && s.Available? && s.emi.Finite?
      && 4707.34 < s.emi.value < 4707.35
      && 112976.33 < s.totalPayment.value < 112976.34
      && 12976.33 < s.totalInterest.value < 12976.34
  {
    var g := 1.01;
    assert MonthlyRate(12.0) == 0.01;
    assert Pow(g, 3) == 1.030301;
    PowAdd(g, 3, 3);
    PowAdd(g, 6, 6);
    PowAdd(g, 12, 12);
    assert Pow(g, 6) == 1.061520150601;
    assert Pow(g, 12) == 1.126825030131969720661201;
    assert Pow(g, 24) == 1.269734648531914468903714880493455422104626762401;
  }

  /** 500000 at 36% a year over 360 months: a positive finite instalment and
      more than half of everything paid is interest. */
  lemma ScenarioHighRateLongTerm()
    ensures var s := CalculateEmi(Some(500000.0), Some(36.0), Some(360));
      && s.Available? && s.emi.Finite? && s.emi.value > 0.0
      && s.totalInterest.value > s.totalPayment.value * 0.5
  {
    assert MonthlyRate(36.0) == 0.03;
    EmiExceedsInterestOnly(500000.0, 0.03, 360);
  }

  /** 1000 at 1% a year over one month: one instalment of 1000 plus one
      month's interest, 1000 * (1 + 1/1200). */
  lemma ScenarioOneMonth()
    ensures var s := CalculateEmi(Some(1000.0), Some(1.0), Some(1));
      && s == Available(Finite(1000.0 + 5.0 / 6.0), Finite(5.0 / 6.0), Finite(1000.0 + 5.0 / 6.0))
  {
    assert MonthlyRate(1.0) == 1.0 / 1200.0;
    EmiOverOneMonth(1000.0, 1.0 / 1200.0);
  }

  // ---------------------------------------------------------------------
  // Steps of real arithmetic, stated as lemmas so that the proofs above can
  // apply them to the terms they name

  lemma QuotientOf(e: real, d: real, p: real)
    requires d != 0.0 && e * d == p
    ensures e == p / d
  {
  }

  lemma ScaleQuotient(k: real, x: real, y: real)
    requires y != 0.0
    ensures (k * x) / y == (x / y) * k
  {
  }

  lemma OverSmallerDenominator(p: real, d1: real, d2: real)
    requires p > 0.0 && 0.0 < d2 < d1
    ensures p / d1 < p / d2
  {
  }

  lemma FactorAboveOne(q: real, d: real, x: real)
    requires d > 0.0 && q * d == x && x > d
    ensures q > 1.0
  {
  }

  lemma OverOneLess(g: real)
    requires g > 1.0
    ensures g / (g - 1.0) > 1.0
  {
    var q := g / (g - 1.0);
    assert q * (g - 1.0) == g;
    FactorAboveOne(q, g - 1.0, g);
  }
}
