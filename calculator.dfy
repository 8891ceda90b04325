/** One calculation pass: the totals over the rental portfolio, then the revolving-credit
    projection driven by the total cash freed. The input form's values arrive as parameters. */
module Calculator {
  import opened Property
  import opened Portfolio
  import opened Projection

  method Calculate(homeLoan: real, homeRate: real, props: seq<Rental>, taxRate: real, years: int)
    returns (totals: Totals, annualSavings: seq<real>, principalPaid: seq<real>,
             cumulativeInterestSaved: seq<real>, cumulativeSaved: real)
    requires AllEvaluable(props)
    ensures totals == PortfolioTotals(props, taxRate)
    ensures annualSavings == SavingsSeries(homeLoan, homeRate, totals.cashFreed, Horizon(years))
    ensures principalPaid == PrincipalSeries(totals.cashFreed, Horizon(years))
    ensures cumulativeInterestSaved == PrefixSums(annualSavings)
    ensures cumulativeSaved == Sum(annualSavings)
    // a portfolio without interest-only loans leaves the home loan untouched, and every
    // year then records the interest on the full starting balance
    ensures (forall i :: 0 <= i < |props| ==> props[i].repayment == PrincipalAndInterest) ==>
              forall k :: 0 <= k < Horizon(years) ==> principalPaid[k] == 0.0 && annualSavings[k] == homeLoan * homeRate
  {
    var rent, expenses, taxSavings, cashFreed := AccumulateTotals(props, taxRate);
    totals := Totals(rent, expenses, taxSavings, cashFreed);
    var balance;
    annualSavings, principalPaid, cumulativeInterestSaved, cumulativeSaved, balance :=
      Project(homeLoan, homeRate, cashFreed, years);
    if forall i :: 0 <= i < |props| ==> props[i].repayment == PrincipalAndInterest {
      NoInterestOnlyNoCashFreed(props, taxRate);
      forall k | 0 <= k < Horizon(years)
        ensures principalPaid[k] == 0.0 && annualSavings[k] == homeLoan * homeRate
      {
        SavingsAgainstBaseline(homeLoan, homeRate, cashFreed, Horizon(years), k);
        PrincipalAt(cashFreed, Horizon(years), k);
      }
    }
  }
}
