/** The per-property evaluator: the figures the calculator derives from one rental property
    and the portfolio-wide marginal tax rate. All money and rates are exact reals. */
module Property {
  import opened Annuity

  /** The two repayment types the input form offers ("Interest-Only", "Principal & Interest"). */
  datatype Repayment = InterestOnly | PrincipalAndInterest

  /** One rental property as the input form records it; rates and the management fee are
      fractions, term is in whole years. */
  datatype Rental = Rental(
    loan: real,
    rate: real,
    term: int,
    repayment: Repayment,
    rentWeekly: real,
    insurance: real,
    councilRates: real,
    maintenance: real,
    mgmtFee: real,
    depreciation: real)

  /** What the evaluator derives for one property. */
  datatype Evaluation = Evaluation(
    annualRent: real,
    interest: real,
    mgmtCost: real,
    expenses: real,
    taxSavings: real,
    cashFreed: real)

  /** The monthly rate and the number of months handed to pmt for an interest-only property. */
  function MonthlyRate(p: Rental): real { p.rate / 12.0 }
  function Months(p: Rental): int { p.term * 12 }

  /** The property can be evaluated: pmt is only consulted for an interest-only loan, and
      then yields a finite payment. */
  predicate Evaluable(p: Rental)
  {
    p.repayment == InterestOnly ==> PmtDefined(MonthlyRate(p), Months(p))
  }

  /** The deduction: total expenses, capped at the rental income. */
  function Deduction(expenses: real, annualRent: real): (d: real)
    ensures d <= expenses && d <= annualRent
    ensures d == expenses || d == annualRent
  {
    if expenses <= annualRent then expenses else annualRent
  }

  /** Evaluate one property at the given marginal tax rate. */
  function Evaluate(p: Rental, taxRate: real): (e: Evaluation)
    requires Evaluable(p)
    // rent, interest and costs, all per year
    ensures e.annualRent == p.rentWeekly * 52.0
    ensures e.interest == p.loan * p.rate
    ensures e.mgmtCost == e.annualRent * p.mgmtFee
    ensures e.expenses == e.interest + p.insurance + p.councilRates + p.maintenance + e.mgmtCost + p.depreciation
    // relief is the tax rate applied to the expenses, capped at the rent
    ensures e.expenses <= e.annualRent ==> e.taxSavings == taxRate * e.expenses
    ensures e.annualRent <= e.expenses ==> e.taxSavings == taxRate * e.annualRent
    ensures taxRate >= 0.0 ==> e.taxSavings <= taxRate * e.annualRent && e.taxSavings <= taxRate * e.expenses
    // only an interest-only loan frees cash
    ensures p.repayment != InterestOnly ==> e.cashFreed == 0.0
    // otherwise the cash freed plus the interest is twelve level monthly payments that
    // retire the loan over the term, and no other monthly payment does that
    ensures p.repayment == InterestOnly ==>
              e.cashFreed == 12.0 * Pmt(MonthlyRate(p), Months(p), -p.loan) - e.interest
    ensures p.repayment == InterestOnly ==>
              MonthlyBalance(p.loan, MonthlyRate(p), (e.cashFreed + e.interest) / 12.0, Months(p)) == 0.0
  {
    var annualRent := p.rentWeekly * 52.0;
    var interest := p.loan * p.rate;
    var mgmtCost := annualRent * p.mgmtFee;
    var expenses := interest + p.insurance + p.councilRates + p.maintenance + mgmtCost + p.depreciation;
    var deduction := Deduction(expenses, annualRent);
    var taxSavings := deduction * taxRate;
    var cashFreed :=
      if p.repayment == InterestOnly then
        var monthly := Pmt(MonthlyRate(p), Months(p), -p.loan);
        PmtAmortises(MonthlyRate(p), Months(p), p.loan, monthly);
        monthly * 12.0 - interest
      else 0.0;
    assert taxRate >= 0.0 ==> deduction * taxRate <= annualRent * taxRate && deduction * taxRate <= expenses * taxRate;
    Evaluation(annualRent, interest, mgmtCost, expenses, taxSavings, cashFreed)
  }

  /** An interest-only loan at a positive rate over a positive term frees a positive amount
      of cash: the equivalent principal-and-interest repayment exceeds the interest. */
  lemma CashFreedPositive(p: Rental, taxRate: real)
    requires p.repayment == InterestOnly && p.loan > 0.0 && p.rate > 0.0 && p.term > 0
    ensures Evaluable(p)
    ensures Evaluate(p, taxRate).cashFreed > 0.0
  {
    PmtExceedsInterest(MonthlyRate(p), Months(p), p.loan);
  }

  /** An interest-only loan at a zero rate frees the loan divided by the term each year. */
  lemma CashFreedAtZeroRate(p: Rental, taxRate: real)
    requires p.repayment == InterestOnly && p.rate == 0.0 && p.term > 0
    ensures Evaluable(p)
    ensures Evaluate(p, taxRate).cashFreed == p.loan / p.term as real
  {
    var n := Months(p) as real;
    assert Pmt(0.0, Months(p), -p.loan) == p.loan / n;
    assert n == 12.0 * p.term as real;
  }

  /** A worked example: an interest-only property with loan 385000 at 4.99% over 30 years,
      weekly rent 760, insurance 3500, council rates 4300, maintenance 2000, a 5.2%
      management fee and 1500 of chattel depreciation, at a 33% marginal tax rate. */
  lemma WorkedExample()
    ensures var p := Rental(385000.0, 0.0499, 30, InterestOnly, 760.0, 3500.0, 4300.0, 2000.0, 0.052, 1500.0);
      Evaluable(p) &&
      var e := Evaluate(p, 0.33);
      e.annualRent == 39520.0 && e.interest == 19211.5 && e.mgmtCost == 2055.04 &&
      e.expenses == 32566.54 && e.taxSavings == 10746.9582 && e.cashFreed > 0.0
  {
    var p := Rental(385000.0, 0.0499, 30, InterestOnly, 760.0, 3500.0, 4300.0, 2000.0, 0.052, 1500.0);
    CashFreedPositive(p, 0.33);
  }
}
