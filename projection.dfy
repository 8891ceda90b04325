/** The revolving-credit projection: each year the portfolio's total freed cash is paid off
    the owner-occupied home loan, and the interest on the reduced balance is recorded as that
    year's "interest saved". The balance is never clamped at zero: once the freed cash has
    overtaken the loan, the balance goes negative and, at a positive home rate, so does the
    yearly figure. */
module Projection {

  /** The sum of a sequence of amounts, added from the front. */
  function Sum(s: seq<real>): real
  {
    if s == [] then 0.0 else Sum(s[..|s| - 1]) + s[|s| - 1]
  }

  /** The number of years range(1, years + 1) visits. */
  function Horizon(years: int): nat
  {
    if years > 0 then years else 0
  }

  /** The home-loan balance after `year` annual lump payments of `cashFreed`, year by year. */
  function BalanceAfter(homeLoan: real, cashFreed: real, year: nat): real
  {
    if year == 0 then homeLoan else BalanceAfter(homeLoan, cashFreed, year - 1) - cashFreed
  }

  /** The balance falls linearly: after `year` payments it is homeLoan - year * cashFreed. */
  lemma {:induction false} BalanceLinear(homeLoan: real, cashFreed: real, year: nat)
    ensures BalanceAfter(homeLoan, cashFreed, year) == homeLoan - year as real * cashFreed
  {
    if year > 0 {
      BalanceLinear(homeLoan, cashFreed, year - 1);
      assert year as real * cashFreed == (year - 1) as real * cashFreed + cashFreed;
    }
  }

  /** The figure recorded for a year: one year's interest on the balance after that year's payment. */
  function InterestSaved(balance: real, homeRate: real): real
  {
    balance * homeRate
  }

  /** The yearly "interest saved" figures for the first n years. */
  function SavingsSeries(homeLoan: real, homeRate: real, cashFreed: real, n: nat): (s: seq<real>)
    ensures |s| == n
  {
    if n == 0 then []
    else SavingsSeries(homeLoan, homeRate, cashFreed, n - 1) + [InterestSaved(BalanceAfter(homeLoan, cashFreed, n), homeRate)]
  }

  /** The cumulative extra principal paid by the end of each of the first n years. */
  function PrincipalSeries(cashFreed: real, n: nat): (s: seq<real>)
    ensures |s| == n
  {
    if n == 0 then [] else PrincipalSeries(cashFreed, n - 1) + [cashFreed * n as real]
  }

  /** The running totals of s: entry k is the sum of s[0..k]. */
  function PrefixSums(s: seq<real>): (c: seq<real>)
    ensures |c| == |s|
    ensures forall k :: 0 <= k < |s| ==> c[k] == Sum(s[..k + 1])
  {
    if s == [] then []
    else
      PrefixOfPrefix(s);
      assert s[..|s|] == s;
      PrefixSums(s[..|s| - 1]) + [Sum(s)]
  }

  lemma PrefixOfPrefix(s: seq<real>)
    requires s != []
    ensures forall j :: 0 <= j < |s| ==> s[..|s| - 1][..j] == s[..j]
  {
  }

  /** Year k + 1 of the series is the interest on the balance after k + 1 payments. */
  lemma {:induction false} SavingsAt(homeLoan: real, homeRate: real, cashFreed: real, n: nat, k: nat)
    requires k < n
    ensures SavingsSeries(homeLoan, homeRate, cashFreed, n)[k] == InterestSaved(BalanceAfter(homeLoan, cashFreed, k + 1), homeRate)
  {
    if k < n - 1 {
      SavingsAt(homeLoan, homeRate, cashFreed, n - 1, k);
    }
  }

  /** Year k + 1 of the principal series is the freed cash times k + 1. */
  lemma {:induction false} PrincipalAt(cashFreed: real, n: nat, k: nat)
    requires k < n
    ensures PrincipalSeries(cashFreed, n)[k] == cashFreed * (k + 1) as real
  {
    if k < n - 1 {
      PrincipalAt(cashFreed, n - 1, k);
    }
  }

  /** Appending one amount adds it to the sum. */
  lemma SumAppend(s: seq<real>, x: real)
    ensures Sum(s + [x]) == Sum(s) + x
  {
    assert (s + [x])[..|s + [x]| - 1] == s;
  }

  /** Appending one amount extends the sum and the running sums by it. */
  lemma SumsStep(s: seq<real>, x: real)
    ensures Sum(s + [x]) == Sum(s) + x
    ensures PrefixSums(s + [x]) == PrefixSums(s) + [Sum(s) + x]
  {
    SumAppend(s, x);
    assert (s + [x])[..|s + [x]| - 1] == s;
  }

  /** One pass of the projection loop keeps its invariants. */
  lemma YearStep(homeLoan: real, homeRate: real, cashFreed: real, year: nat, savings: seq<real>)
    requires year > 0
    requires savings == SavingsSeries(homeLoan, homeRate, cashFreed, year - 1)
    ensures savings + [InterestSaved(BalanceAfter(homeLoan, cashFreed, year), homeRate)]
         == SavingsSeries(homeLoan, homeRate, cashFreed, year)
    ensures PrincipalSeries(cashFreed, year - 1) + [cashFreed * year as real] == PrincipalSeries(cashFreed, year)
  {
  }

  /** The projection loop over years 1 .. years. */
  method Project(homeLoan: real, homeRate: real, totalCashFreed: real, years: int)
    returns (annualSavings: seq<real>, principalPaid: seq<real>, cumulativeInterestSaved: seq<real>,
             cumulativeSaved: real, balance: real)
    ensures annualSavings == SavingsSeries(homeLoan, homeRate, totalCashFreed, Horizon(years))
    ensures principalPaid == PrincipalSeries(totalCashFreed, Horizon(years))
    ensures cumulativeInterestSaved == PrefixSums(annualSavings)
    ensures |annualSavings| == |principalPaid| == |cumulativeInterestSaved| == Horizon(years)
    // the cumulative figures are the running sums of the yearly ones
    ensures forall k :: 0 <= k < Horizon(years) ==> cumulativeInterestSaved[k] == Sum(annualSavings[..k + 1])
    ensures cumulativeSaved == Sum(annualSavings)
    ensures balance == BalanceAfter(homeLoan, totalCashFreed, Horizon(years))
  {
    balance := homeLoan;
    annualSavings, principalPaid, cumulativeInterestSaved := [], [], [];
    cumulativeSaved := 0.0;
    for year := 1 to Horizon(years) + 1
      invariant balance == BalanceAfter(homeLoan, totalCashFreed, year - 1)
      invariant annualSavings == SavingsSeries(homeLoan, homeRate, totalCashFreed, year - 1)
      invariant principalPaid == PrincipalSeries(totalCashFreed, year - 1)
      invariant cumulativeInterestSaved == PrefixSums(annualSavings)
      invariant cumulativeSaved == Sum(annualSavings)
    {
      YearStep(homeLoan, homeRate, totalCashFreed, year, annualSavings);
      balance := balance - totalCashFreed;
      var interestSaved := InterestSaved(balance, homeRate);
      SumsStep(annualSavings, interestSaved);
      cumulativeSaved := cumulativeSaved + interestSaved;
      annualSavings := annualSavings + [interestSaved];
      principalPaid := principalPaid + [totalCashFreed * year as real];
      cumulativeInterestSaved := cumulativeInterestSaved + [cumulativeSaved];
    }
  }

  /** The entries of both series in closed form: in year k + 1 the extra principal paid is
      k + 1 times the freed cash, and the figure recorded is the interest on the home loan
      less that principal. */
  lemma SeriesEntries(homeLoan: real, homeRate: real, cashFreed: real, n: nat)
    ensures forall k :: 0 <= k < n ==> PrincipalSeries(cashFreed, n)[k] == cashFreed * (k + 1) as real
    ensures forall k :: 0 <= k < n ==>
              SavingsSeries(homeLoan, homeRate, cashFreed, n)[k] == (homeLoan - (k + 1) as real * cashFreed) * homeRate
  {
    forall k | 0 <= k < n
      ensures PrincipalSeries(cashFreed, n)[k] == cashFreed * (k + 1) as real
    {
      PrincipalAt(cashFreed, n, k);
    }
    forall k | 0 <= k < n
      ensures SavingsSeries(homeLoan, homeRate, cashFreed, n)[k] == (homeLoan - (k + 1) as real * cashFreed) * homeRate
    {
      SavingsEntry(homeLoan, homeRate, cashFreed, n, k);
    }
  }

  lemma SavingsEntry(homeLoan: real, homeRate: real, cashFreed: real, n: nat, k: nat)
    requires k < n
    ensures SavingsSeries(homeLoan, homeRate, cashFreed, n)[k] == (homeLoan - (k + 1) as real * cashFreed) * homeRate
  {
    SavingsAt(homeLoan, homeRate, cashFreed, n, k);
    BalanceLinear(homeLoan, cashFreed, k + 1);
  }

  /** Closed form of the cumulative figure: over n years it is
      rate * (n * L - c * n * (n + 1) / 2), stated here doubled to avoid the division. */
  lemma {:induction false} CumulativeClosedForm(homeLoan: real, homeRate: real, cashFreed: real, n: nat)
    ensures 2.0 * Sum(SavingsSeries(homeLoan, homeRate, cashFreed, n))
         == homeRate * (2.0 * (n as real) * homeLoan - cashFreed * (n as real) * ((n as real) + 1.0))
  {
    if n > 0 {
      CumulativeClosedForm(homeLoan, homeRate, cashFreed, n - 1);
      CumulativeStep(homeLoan, homeRate, cashFreed, n);
      CumulativeInduction(homeLoan, homeRate, cashFreed, n,
        Sum(SavingsSeries(homeLoan, homeRate, cashFreed, n - 1)), Sum(SavingsSeries(homeLoan, homeRate, cashFreed, n)));
    }
  }

  /** The induction step of the closed form, over the two cumulative figures. */
  lemma CumulativeInduction(homeLoan: real, homeRate: real, cashFreed: real, n: nat, before: real, after: real)
    requires n > 0
    requires 2.0 * before
          == homeRate * (2.0 * ((n - 1) as real) * homeLoan - cashFreed * ((n - 1) as real) * (((n - 1) as real) + 1.0))
    requires after == before + InterestSaved(homeLoan - (n as real) * cashFreed, homeRate)
    ensures 2.0 * after == homeRate * (2.0 * (n as real) * homeLoan - cashFreed * (n as real) * ((n as real) + 1.0))
  {
    PolynomialStep(homeLoan, homeRate, cashFreed, (n - 1) as real, n as real, homeLoan - (n as real) * cashFreed, before, after);
  }

  /** One more year adds that year's figure to the cumulative one. */
  lemma CumulativeStep(homeLoan: real, homeRate: real, cashFreed: real, n: nat)
    requires n > 0
    ensures Sum(SavingsSeries(homeLoan, homeRate, cashFreed, n))
         == Sum(SavingsSeries(homeLoan, homeRate, cashFreed, n - 1)) + InterestSaved(homeLoan - (n as real) * cashFreed, homeRate)
  {
    BalanceLinear(homeLoan, cashFreed, n);
    SumAppend(SavingsSeries(homeLoan, homeRate, cashFreed, n - 1), InterestSaved(BalanceAfter(homeLoan, cashFreed, n), homeRate));
  }

  lemma PolynomialStep(homeLoan: real, homeRate: real, cashFreed: real, m: real, k: real, b: real, before: real, after: real)
    requires k == m + 1.0 && b == homeLoan - k * cashFreed
    requires 2.0 * before == homeRate * (2.0 * m * homeLoan - cashFreed * m * (m + 1.0))
    requires after == before + InterestSaved(b, homeRate)
    ensures 2.0 * after == homeRate * (2.0 * k * homeLoan - cashFreed * k * (k + 1.0))
  {
  }

  /** Against a loan that receives no extra payments, whose interest is homeLoan * homeRate
      every year, the figure recorded in year k + 1 is lower by exactly the interest on the
      (k + 1) * cashFreed paid in so far; so with no freed cash every year records the full
      interest on the starting balance. */
  lemma SavingsAgainstBaseline(homeLoan: real, homeRate: real, cashFreed: real, n: nat, k: nat)
    requires k < n
    ensures homeLoan * homeRate - SavingsSeries(homeLoan, homeRate, cashFreed, n)[k]
         == (k + 1) as real * cashFreed * homeRate
    ensures cashFreed == 0.0 ==> SavingsSeries(homeLoan, homeRate, cashFreed, n)[k] == homeLoan * homeRate
  {
    SavingsAt(homeLoan, homeRate, cashFreed, n, k);
    BalanceLinear(homeLoan, cashFreed, k + 1);
    BaselineAlgebra(homeLoan, homeRate, cashFreed, (k + 1) as real);
  }

  lemma BaselineAlgebra(homeLoan: real, homeRate: real, cashFreed: real, y: real)
    ensures homeLoan * homeRate - (homeLoan - y * cashFreed) * homeRate == y * cashFreed * homeRate
  {
  }

  /** The projection is not clamped: once the freed cash paid in exceeds the home loan, the
      balance is negative and, at a positive rate, so is that year's figure. */
  lemma OverpaymentGoesNegative(homeLoan: real, homeRate: real, cashFreed: real, n: nat, k: nat)
    requires k < n && homeRate > 0.0 && (k + 1) as real * cashFreed > homeLoan
    ensures BalanceAfter(homeLoan, cashFreed, k + 1) < 0.0
    ensures SavingsSeries(homeLoan, homeRate, cashFreed, n)[k] < 0.0
  {
    SavingsAt(homeLoan, homeRate, cashFreed, n, k);
    BalanceLinear(homeLoan, cashFreed, k + 1);
    var b := BalanceAfter(homeLoan, cashFreed, k + 1);
    assert b * homeRate < 0.0 * homeRate;
  }
}
