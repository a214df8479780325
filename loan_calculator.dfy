/** The `LoanCalculator` component: three input fields, three derived
    result fields that are recomputed whenever an input changes, the
    slider positions and the result panel. Each input holds the number its
    text parses to (None for NaN; an empty field parses to zero). */
module LoanCalculatorComponent {
  import opened EmiEngine

  /** The positions a slider falls back to when its input is falsy. */
  const LoanAmountFallback: real := 100000.0
  const InterestRateFallback: real := 10.0
  const LoanTermFallback: real := 12.0

  /** The slider ranges; the slider widget reports only values inside them. */
  const LoanAmountMin: real := 1000.0
  const LoanAmountMax: real := 500000.0
  const InterestRateMin: real := 1.0
  const InterestRateMax: real := 36.0
  const LoanTermMin: int := 1
  const LoanTermMax: int := 360

  /** The position a slider shows, `Number(x) || fallback`: the fallback
      when the parsed input is NaN or zero, and the input otherwise. */
  function SliderValue(x: Option<real>, fallback: real): (v: real)
    ensures x.None? ==> v == fallback
    ensures x == Some(0.0) ==> v == fallback
    ensures x.Some? && x.value != 0.0 ==> v == x.value
  {
    if IsFalsy(x) then fallback else x.value
  }

  /** The parsed term as a number, for its slider: NaN stays NaN and a
      whole number keeps its value, so it is falsy exactly when the term is. */
  function TermAsNumber(x: Option<int>): (r: Option<real>)
    ensures r.None? <==> x.None?
    ensures r.Some? ==> r.value == x.value as real
    ensures IsFalsy(r) <==> IsFalsyTerm(x)
  {
    match x
    case None => None
    case Some(n) => Some(n as real)
  }

  /** What the result panel shows: the three figures, or the placeholder
      "Enter valid values to see results". */
  datatype Panel = Placeholder | Figures(emi: Figure, totalInterest: Figure, totalPayment: Figure)

  class LoanCalculator {
    // The three inputs.
    var loanAmount: Option<real>
    var interestRate: Option<real>
    var loanTerm: Option<int>
    // The three derived results; None is the source's null.
    var emi: Option<Figure>
    var totalInterest: Option<Figure>
    var totalPayment: Option<Figure>

    /** The three results are set together or cleared together. */
    ghost predicate AllOrNothing()
      reads this
    {
      emi.Some? == totalInterest.Some? && totalInterest.Some? == totalPayment.Some?
    }

    /** The results as one value. */
    ghost function Results(): Summary
      reads this
      requires AllOrNothing()
    {
      if emi.Some? then Available(emi.value, totalInterest.value, totalPayment.value)
      else Unavailable
    }

    /** The component's invariant: the results are all-or-nothing and are
        the calculation applied to the current inputs. */
    ghost predicate Valid()
      reads this
    {
      AllOrNothing() && Results() == CalculateEmi(loanAmount, interestRate, loanTerm)
    }

    /** Mounting: the inputs start at "100000", "12" and "24", the results
        at null, and the mount effect then runs the calculation. */
    constructor ()
      ensures Valid()
      ensures loanAmount == Some(100000.0) && interestRate == Some(12.0) && loanTerm == Some(24)
    {
      loanAmount := Some(100000.0);
      interestRate := Some(12.0);
      loanTerm := Some(24);
      emi := None;
      totalInterest := None;
      totalPayment := None;
      new;
      CalculateEMI();
    }

    /** The calculation: on inputs the guard rejects it clears all three
        results; otherwise it sets all three from the formula. The inputs
        are left as they are. */
    method CalculateEMI()
      modifies this`emi, this`totalInterest, this`totalPayment
      ensures Valid()
      ensures emi.None? <==> !Accepts(loanAmount, interestRate, loanTerm)
    {
      var principal, annualRate, n := loanAmount, interestRate, loanTerm;
      if IsFalsy(principal) || principal.value <= 0.0 || IsFalsy(annualRate) || IsFalsyTerm(n) || n.value <= 0 {
        emi := None;
        totalInterest := None;
        totalPayment := None;
        return;
      }
      var rate := MonthlyRate(annualRate.value);
      var emiCalc := Emi(principal.value, rate, n.value as nat);
      var totalPay := Times(emiCalc, n.value as real);
      var totalInt := Minus(totalPay, principal.value);
      emi := Some(emiCalc);
      totalInterest := Some(totalInt);
      totalPayment := Some(totalPay);
    }

    /** The loan-amount slider's position: 100000 when the field is NaN or
        zero, the field's value otherwise. */
    function LoanAmountSlider(): (v: real)
      reads this
      ensures IsFalsy(loanAmount) ==> v == LoanAmountFallback
      ensures !IsFalsy(loanAmount) ==> v == loanAmount.value
    {
      SliderValue(loanAmount, LoanAmountFallback)
    }

    /** The interest-rate slider's position: 10 when the field is NaN or
        zero, the field's value otherwise. */
    function InterestRateSlider(): (v: real)
      reads this
      ensures IsFalsy(interestRate) ==> v == InterestRateFallback
      ensures !IsFalsy(interestRate) ==> v == interestRate.value
    {
      SliderValue(interestRate, InterestRateFallback)
    }

    /** The loan-term slider's position: 12 when the field is NaN or zero,
        the field's value otherwise. */
    function LoanTermSlider(): (v: real)
      reads this
      ensures IsFalsyTerm(loanTerm) ==> v == LoanTermFallback
      ensures !IsFalsyTerm(loanTerm) ==> v == loanTerm.value as real
    {
      SliderValue(TermAsNumber(loanTerm), LoanTermFallback)
    }

    /** A new loan amount (typed, or from the slider); the results follow. */
    method SetLoanAmount(x: Option<real>)
      modifies this
      ensures loanAmount == x && interestRate == old(interestRate) && loanTerm == old(loanTerm)
      ensures Valid()
      ensures LoanAmountSlider() == if IsFalsy(x) then LoanAmountFallback else x.value
    {
      loanAmount := x;
      CalculateEMI();
    }

    /** A new interest rate (typed, or from the slider); the results follow. */
    method SetInterestRate(x: Option<real>)
      modifies this
      ensures interestRate == x && loanAmount == old(loanAmount) && loanTerm == old(loanTerm)
      ensures Valid()
      ensures InterestRateSlider() == if IsFalsy(x) then InterestRateFallback else x.value
    {
      interestRate := x;
      CalculateEMI();
    }

    /** A new loan term (typed, or from the slider); the results follow. */
    method SetLoanTerm(x: Option<int>)
      modifies this
      ensures loanTerm == x && loanAmount == old(loanAmount) && interestRate == old(interestRate)
      ensures Valid()
      ensures LoanTermSlider() == if IsFalsyTerm(x) then LoanTermFallback else x.value as real
    {
      loanTerm := x;
      CalculateEMI();
    }

    /** Dragging the loan-amount slider: the field takes the slider's value
        and the slider then shows that same value. */
    method SlideLoanAmount(v: real)
      requires LoanAmountMin <= v <= LoanAmountMax
      modifies this
      ensures loanAmount == Some(v) && LoanAmountSlider() == v
      ensures interestRate == old(interestRate) && loanTerm == old(loanTerm)
      ensures Valid()
    {
      SetLoanAmount(Some(v));
    }

    /** Dragging the interest-rate slider. */
    method SlideInterestRate(v: real)
      requires InterestRateMin <= v <= InterestRateMax
      modifies this
      ensures interestRate == Some(v) && InterestRateSlider() == v
      ensures loanAmount == old(loanAmount) && loanTerm == old(loanTerm)
      ensures Valid()
    {
      SetInterestRate(Some(v));
    }

    /** Dragging the loan-term slider. */
    method SlideLoanTerm(v: int)
      requires LoanTermMin <= v <= LoanTermMax
      modifies this
      ensures loanTerm == Some(v) && LoanTermSlider() == v as real
      ensures loanAmount == old(loanAmount) && interestRate == old(interestRate)
      ensures Valid()
    {
      SetLoanTerm(Some(v));
    }

    /** The result panel: the figures when an instalment is held, the
        placeholder otherwise. On a valid component it shows the
        placeholder exactly when the guard rejects the current inputs, and
        otherwise the figures of the calculation on them. */
    function ResultPanel(): (panel: Panel)
      reads this
      requires Valid()
      ensures panel.Placeholder? <==> !Accepts(loanAmount, interestRate, loanTerm)
      ensures panel.Figures? ==>
        CalculateEmi(loanAmount, interestRate, loanTerm)
          == Available(panel.emi, panel.totalInterest, panel.totalPayment)
    {
      if emi.Some? then Figures(emi.value, totalInterest.value, totalPayment.value)
      else Placeholder
    }
  }
}
