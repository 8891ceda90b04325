/** The portfolio accumulator: one pass over the rental properties that adds each property's
    rent, expenses, tax savings and cash freed into four running totals. */
module Portfolio {
  import opened Property

  /** The four portfolio-wide totals. */
  datatype Totals = Totals(rent: real, expenses: real, taxSavings: real, cashFreed: real)

  const Zero := Totals(0.0, 0.0, 0.0, 0.0)

  function Plus(a: Totals, b: Totals): Totals
  {
    Totals(a.rent + b.rent, a.expenses + b.expenses, a.taxSavings + b.taxSavings, a.cashFreed + b.cashFreed)
  }

  /** One property's contribution to the totals. */
  function Contribution(e: Evaluation): Totals
  {
    Totals(e.annualRent, e.expenses, e.taxSavings, e.cashFreed)
  }

  predicate AllEvaluable(props: seq<Rental>)
  {
    forall i :: 0 <= i < |props| ==> Evaluable(props[i])
  }

  /** The totals as sums over the properties, taken in order. */
  function PortfolioTotals(props: seq<Rental>, taxRate: real): Totals
    requires AllEvaluable(props)
  {
    if props == [] then Zero
    else Plus(PortfolioTotals(props[..|props| - 1], taxRate), Contribution(Evaluate(props[|props| - 1], taxRate)))
  }

  /** The properties loop: every total starts at 0 and each property adds its own figure. */
  method AccumulateTotals(props: seq<Rental>, taxRate: real)
    returns (totalRent: real, totalExpenses: real, totalTaxSavings: real, totalCashFreed: real)
    requires AllEvaluable(props)
    ensures Totals(totalRent, totalExpenses, totalTaxSavings, totalCashFreed) == PortfolioTotals(props, taxRate)
  {
    totalRent, totalExpenses, totalTaxSavings, totalCashFreed := 0.0, 0.0, 0.0, 0.0;
    for i := 0 to |props|
      invariant Totals(totalRent, totalExpenses, totalTaxSavings, totalCashFreed) == PortfolioTotals(props[..i], taxRate)
    {
      var e := Evaluate(props[i], taxRate);
      totalRent := totalRent + e.annualRent;
      totalExpenses := totalExpenses + e.expenses;
      totalTaxSavings := totalTaxSavings + e.taxSavings;
      totalCashFreed := totalCashFreed + e.cashFreed;
      assert props[..i + 1][..i] == props[..i];
    }
    assert props[..|props|] == props;
  }

  /** The totals of two portfolios side by side are the sums of their totals. */
  lemma {:induction false} TotalsAppend(a: seq<Rental>, b: seq<Rental>, taxRate: real)
    requires AllEvaluable(a) && AllEvaluable(b)
    ensures AllEvaluable(a + b)
    ensures PortfolioTotals(a + b, taxRate) == Plus(PortfolioTotals(a, taxRate), PortfolioTotals(b, taxRate))
  {
    assert AllEvaluable(a + b) by {
      forall i | 0 <= i < |a + b| ensures Evaluable((a + b)[i]) {
        if i < |a| { assert (a + b)[i] == a[i]; } else { assert (a + b)[i] == b[i - |a|]; }
      }
    }
    if b == [] {
      assert a + b == a;
    } else {
      var b' := b[..|b| - 1];
      assert AllEvaluable(b') by {
        forall i | 0 <= i < |b'| ensures Evaluable(b'[i]) { assert b'[i] == b[i]; }
      }
      TotalsAppend(a, b', taxRate);
      assert (a + b)[..|a + b| - 1] == a + b';
      assert (a + b)[|a + b| - 1] == b[|b| - 1];
    }
  }

  /** Swapping two blocks of a portfolio, entering b's properties before a's, leaves the
      totals unchanged. */
  lemma TotalsOrderIndependent(a: seq<Rental>, b: seq<Rental>, taxRate: real)
    requires AllEvaluable(a) && AllEvaluable(b)
    ensures AllEvaluable(a + b) && AllEvaluable(b + a)
    ensures PortfolioTotals(a + b, taxRate) == PortfolioTotals(b + a, taxRate)
  {
    TotalsAppend(a, b, taxRate);
    TotalsAppend(b, a, taxRate);
  }

  /** Dropping the last property keeps a portfolio evaluable. */
  lemma InitEvaluable(props: seq<Rental>)
    requires AllEvaluable(props) && props != []
    ensures AllEvaluable(props[..|props| - 1])
  {
    var init := props[..|props| - 1];
    forall i | 0 <= i < |init| ensures Evaluable(init[i]) { assert init[i] == props[i]; }
  }

  /** The portfolio's tax savings stay within the tax rate applied to its total rent and to
      its total expenses. */
  predicate TaxSavingsCapped(t: Totals, taxRate: real)
  {
    t.taxSavings <= taxRate * t.rent && t.taxSavings <= taxRate * t.expenses
  }

  /** At a non-negative tax rate, the portfolio's tax savings never exceed the tax rate
      applied to its total rent, nor to its total expenses. */
  lemma {:induction false} TotalTaxSavingsCapped(props: seq<Rental>, taxRate: real)
    requires AllEvaluable(props) && taxRate >= 0.0
    ensures TaxSavingsCapped(PortfolioTotals(props, taxRate), taxRate)
  {
    if props == [] {
      assert PortfolioTotals(props, taxRate) == Zero;
    } else {
      InitEvaluable(props);
      TotalTaxSavingsCapped(props[..|props| - 1], taxRate);
      TaxCapStep(props, taxRate);
    }
  }

  lemma TaxCapStep(props: seq<Rental>, taxRate: real)
    requires AllEvaluable(props) && props != [] && taxRate >= 0.0
    requires AllEvaluable(props[..|props| - 1])
    requires TaxSavingsCapped(PortfolioTotals(props[..|props| - 1], taxRate), taxRate)
    ensures TaxSavingsCapped(PortfolioTotals(props, taxRate), taxRate)
  {
    var last := props[|props| - 1];
    EvaluationCapped(last, taxRate);
    CapPlus(taxRate, PortfolioTotals(props[..|props| - 1], taxRate), Contribution(Evaluate(last, taxRate)));
  }

  /** One property's contribution keeps both caps. */
  lemma EvaluationCapped(p: Rental, taxRate: real)
    requires Evaluable(p) && taxRate >= 0.0
    ensures TaxSavingsCapped(Contribution(Evaluate(p, taxRate)), taxRate)
  {
  }

  /** The caps add up. */
  lemma CapPlus(taxRate: real, t: Totals, u: Totals)
    requires TaxSavingsCapped(t, taxRate) && TaxSavingsCapped(u, taxRate)
    ensures TaxSavingsCapped(Plus(t, u), taxRate)
  {
    assert taxRate * (t.rent + u.rent) == taxRate * t.rent + taxRate * u.rent;
    assert taxRate * (t.expenses + u.expenses) == taxRate * t.expenses + taxRate * u.expenses;
  }

  /** The interest-only properties of a portfolio. */
  function InterestOnlyRentals(props: seq<Rental>): (io: seq<Rental>)
    ensures forall p :: p in io <==> p in props && p.repayment == InterestOnly
  {
    if props == [] then []
    else
      var init := InterestOnlyRentals(props[..|props| - 1]);
      var last := props[|props| - 1];
      assert forall p :: p in props <==> p in props[..|props| - 1] || p == last;
      if last.repayment == InterestOnly then init + [last] else init
  }

  /** Every interest-only property of an evaluable portfolio is evaluable. */
  lemma InterestOnlyEvaluable(props: seq<Rental>)
    requires AllEvaluable(props)
    ensures AllEvaluable(InterestOnlyRentals(props))
  {
    var io := InterestOnlyRentals(props);
    forall i | 0 <= i < |io| ensures Evaluable(io[i]) {
      assert io[i] in props;
      var j :| 0 <= j < |props| && props[j] == io[i];
    }
  }

  /** Principal-and-interest properties contribute nothing to the total cash freed: it is
      the total over the interest-only properties alone. */
  lemma {:induction false} CashFreedFromInterestOnly(props: seq<Rental>, taxRate: real)
    requires AllEvaluable(props)
    ensures AllEvaluable(InterestOnlyRentals(props))
    ensures PortfolioTotals(props, taxRate).cashFreed == PortfolioTotals(InterestOnlyRentals(props), taxRate).cashFreed
  {
    InterestOnlyEvaluable(props);
    if props != [] {
      var init := props[..|props| - 1];
      var last := props[|props| - 1];
      assert AllEvaluable(init) by {
        forall i | 0 <= i < |init| ensures Evaluable(init[i]) { assert init[i] == props[i]; }
      }
      CashFreedFromInterestOnly(init, taxRate);
      var io, ioInit := InterestOnlyRentals(props), InterestOnlyRentals(init);
      if last.repayment == InterestOnly {
        assert io[..|io| - 1] == ioInit;
      } else {
        assert io == ioInit;
      }
    }
  }

  /** A portfolio of principal-and-interest properties frees no cash at all. */
  lemma NoInterestOnlyNoCashFreed(props: seq<Rental>, taxRate: real)
    requires AllEvaluable(props)
    requires forall i :: 0 <= i < |props| ==> props[i].repayment == PrincipalAndInterest
    ensures PortfolioTotals(props, taxRate).cashFreed == 0.0
  {
    CashFreedFromInterestOnly(props, taxRate);
    assert InterestOnlyRentals(props) == [];
  }
}
