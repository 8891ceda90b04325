# NZ property tax and revolving-credit calculator — verified model

This project models the calculation core of a New Zealand property-investment calculator (`streamlit_app.py`). It has two parts.

**Per-property evaluator and totals.** For each rental property the calculator derives:

- annual rent (weekly rent × 52);
- a year's simple interest on the loan;
- the property-management cost;
- the total deductible expenses;
- the tax savings, which are the marginal tax rate applied to the expenses capped at the rental income;
- the "cash freed".

Cash freed is the gap between an equivalent principal-and-interest repayment and the interest alone. Only interest-only loans free cash. The four figures that feed the portfolio are added into running totals.

**Revolving-credit projection.** Each year, for a given number of years, the total freed cash is paid off the owner-occupied home loan. One year's interest on the reduced balance is recorded as that year's "interest saved", together with its running total and the cumulative extra principal paid. The balance is not clamped, so once the freed cash exceeds the loan the balance goes negative and, at a positive home rate, so does the yearly figure.

Modules:

- `Annuity` (`annuity.dfy`) models the level repayment `numpy_financial.pmt(rate, nper, pv)`.
  - It is written out as numpy's closed form with a future value of 0 and end-of-period payments: `-pv * (1+r)^n * r / ((1+r)^n - 1)`, and `-pv / n` when the rate is 0.
  - It applies over exactly the inputs where that form is finite for `n > 0`.
  - Its meaning is given independently by the month-by-month loan balance `MonthlyBalance`. The lemmas prove that pmt is the one level payment that clears that balance, and that at a positive rate it equals the textbook annuity formula `r * PV / (1 - (1 + r)^-n)`.
- `Property` (`property.dfy`) holds the rental record, the evaluation record and the pure per-property evaluator `Evaluate`.
- `Portfolio` (`portfolio.dfy`) holds the properties loop. It is a method with four accumulators, proved equal to `PortfolioTotals`, the sum over the sequence.
- `Projection` (`projection.dfy`) holds the projection loop. It is a method that mutates the balance and the cumulative figure and appends to three sequences, proved equal to recursive series functions. The lemmas give those series in closed form.
- `Calculator` (`calculator.dfy`) runs one full pass: totals first, then the projection driven by the total cash freed.

Money, rates and fractions are exact `real`s. The input form's values are parameters.

## Model

| member | source | states |
|---|---|---|
| Annuity.Pmt | streamlit_app.py:78 | numpy's pmt with a future value of 0 and payment at the end of each period: `-pv * (1+r)^n * r / ((1+r)^n - 1)`, and `-pv / n` at a zero rate, over `PmtDefined`. Its contract states that at a zero rate nper payments add up to the amount borrowed, and otherwise that the payments, compounded to the last period, equal the compounded amount borrowed (`p * ((1+r)^n - 1) = -pv * (1+r)^n * r`). PmtAmortises and PmtAnnuityFormula give its meaning. |
| Annuity.PmtAmortises | streamlit_app.py:78 | A level payment brings a loan to a zero balance after exactly nper periods of compounding at `rate` if and only if it equals `pmt(rate, nper, -loan)`. This holds at every rate in pmt's domain, including 0. |
| Annuity.PmtAnnuityFormula | streamlit_app.py:78 | At a positive rate, pmt is defined and equals the annuity formula `rate * loan / (1 - 1 / (1 + rate)^nper)`. |
| Annuity.PmtExceedsInterest | streamlit_app.py:78-80 | At a positive rate over a positive number of periods, the payment on a positive loan is strictly more than one period's interest `rate * loan`. |
| Annuity.PositiveRateDefined | streamlit_app.py:78 | Every positive rate over a positive number of periods lies in pmt's domain. |
| Annuity.PowAboveOne | streamlit_app.py:78 | The compound growth factor `x^n` exceeds 1 when `x > 1` and `n > 0`. |
| Annuity.BalanceClosedForm | streamlit_app.py:78 | The balance after k periods satisfies `r * B(k) = r * L * (1+r)^k - P * ((1+r)^k - 1)`. |
| Annuity.BalanceAtZeroRate | streamlit_app.py:78 | At a zero rate the balance after k periods is `L - k * P`. |
| Property.Deduction | streamlit_app.py:75 | The deduction is the smaller of expenses and annual rent: it is at most each of them and equal to one of them. |
| Property.Evaluate | streamlit_app.py:71-82 | Annual rent is weekly rent × 52. Interest is loan × rate. Management cost is annual rent × fee. Expenses are the sum of the six cost items. Tax savings are `taxRate * expenses` when expenses do not exceed rent, and `taxRate * rent` otherwise. At a non-negative tax rate they are bounded by both. A principal-and-interest property frees 0. An interest-only one frees `12 * pmt(rate/12, term*12, -loan) - interest`, and that annual payment, spread over 12 months, retires the loan over the term. |
| Property.CashFreedPositive | streamlit_app.py:77-80 | An interest-only property with a positive loan, rate and term frees a strictly positive amount of cash. |
| Property.CashFreedAtZeroRate | streamlit_app.py:77-80 | An interest-only property at a zero rate frees `loan / term` per year. |
| Property.WorkedExample | streamlit_app.py:71-80 | With the form's default property (loan 385000 at 4.99% over 30 years, interest-only, rent 760/week, and the default costs) and a 33% tax rate, the figures are: rent 39520, interest 19211.5, management cost 2055.04, expenses 32566.54, tax savings 10746.9582, and positive cash freed. |
| Portfolio.AccumulateTotals | streamlit_app.py:65-87 | After the properties loop, the four accumulators equal the four sums, over the properties in order, of each property's rent, expenses, tax savings and cash freed. |
| Portfolio.TotalsAppend | streamlit_app.py:84-87 | The totals of a concatenated portfolio are the sums of the two portfolios' totals. |
| Portfolio.TotalsOrderIndependent | streamlit_app.py:84-87 | The totals do not depend on the order in which the two parts of a portfolio are entered. |
| Portfolio.TotalTaxSavingsCapped | streamlit_app.py:75-86 | At a non-negative tax rate, the total tax savings are at most the tax rate times the total rent, and at most the tax rate times the total expenses. |
| Portfolio.InterestOnlyRentals | streamlit_app.py:77 | A property is in the selection if and only if it is in the portfolio and its loan is interest-only. |
| Portfolio.CashFreedFromInterestOnly | streamlit_app.py:77-87 | The total cash freed equals the total over the interest-only properties alone. |
| Portfolio.NoInterestOnlyNoCashFreed | streamlit_app.py:81-87 | A portfolio of principal-and-interest properties frees no cash in total. |
| Projection.Project | streamlit_app.py:90-102 | After the projection loop: the three lists each have one entry per year of the horizon; they equal the yearly interest-saved series, the cumulative principal series and the running sums of the first list; entry k of the cumulative list is the sum of the first k+1 yearly figures; the final cumulative figure is the sum of all of them; and the balance is the home loan after that many payments. |
| Projection.BalanceLinear | streamlit_app.py:90-97 | After `year` annual payments the balance is `homeLoan - year * cashFreed`. |
| Projection.SeriesEntries | streamlit_app.py:96-101 | In year k+1 the extra principal paid is `cashFreed * (k+1)`, and the figure recorded is `(homeLoan - (k+1) * cashFreed) * homeRate`. |
| Projection.SavingsAt | streamlit_app.py:97-100 | Entry k of the yearly series is one year's interest on the balance after k+1 payments. |
| Projection.PrincipalAt | streamlit_app.py:101 | Entry k of the principal series is `cashFreed * (k+1)`. |
| Projection.PrefixSums | streamlit_app.py:99-102 | The running-sum list has the length of its input, and entry k is the sum of the first k+1 input entries. |
| Projection.CumulativeClosedForm | streamlit_app.py:96-99 | Over n years the cumulative interest saved is `homeRate * (n * homeLoan - cashFreed * n * (n+1) / 2)`. |
| Projection.SavingsAgainstBaseline | streamlit_app.py:97-98 | Year k+1's figure falls short of the interest on the untouched home loan by exactly `(k+1) * cashFreed * homeRate`. With no freed cash, every year records `homeLoan * homeRate`. |
| Projection.OverpaymentGoesNegative | streamlit_app.py:97-98 | Once `(k+1) * cashFreed` exceeds the home loan, the balance is negative and, at a positive rate, so is that year's figure. The model does not clamp. |
| Calculator.Calculate | streamlit_app.py:65-102 | One full pass: the totals are the portfolio sums, and the three lists and the cumulative figure are the projection series driven by the total cash freed. When no property is interest-only, every year's principal paid is 0 and every year's figure is `homeLoan * homeRate`. |

## Left out

- Page setup, sidebar inputs and the summary output (streamlit_app.py:7-62, 105-118) are user interface. Their values become parameters. The form's bounds on the number of properties and the horizon (1–10) are not model invariants.
- The pandas DataFrame and the matplotlib chart (streamlit_app.py:123-137) are presentation only.
- Floating-point rounding and the `:,.0f` display formatting: the model uses exact real arithmetic.
- `home_term`, `home_insurance` and `home_rates` (streamlit_app.py:23-25) are read but never used, so they are not modelled.
- Property.Evaluate: an interest-only property must have a positive term and, at a non-zero monthly rate, a growth factor `(1 + rate/12)^(term*12) != 1`. A zero term, or a growth factor of exactly 1 at a non-zero monthly rate, makes numpy's pmt divide by zero and return inf or nan. A zero rate is covered: there numpy takes its `-pv / nper` branch, and so does the model. A negative term gives a finite, negative payment, which the model excludes because a loan of negative length has no meaning and `Pow` takes a natural-number exponent. Principal-and-interest properties are unrestricted because pmt is not called for them.
- Portfolio.AccumulateTotals: inherits the same exclusion through `AllEvaluable`: every interest-only property in the portfolio must satisfy it.
- Calculator.Calculate: inherits the same exclusion through `AllEvaluable`, because it runs the properties loop over the whole portfolio.
- The repayment type is a two-valued datatype rather than a string, because the form's select box offers only "Interest-Only" and "Principal & Interest". Any string other than "Interest-Only" behaves like the second value.
