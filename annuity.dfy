/** The level repayment of an amortising loan, as numpy_financial.pmt computes it with a
    future value of 0 and payments at the end of each period.

    Modelling choice: pmt is written out as its closed form (not left opaque), together with
    its branch for a zero rate, over exactly the inputs where that form yields a finite number
    for a positive number of periods. Its meaning is stated independently by MonthlyBalance: the
    payment is the one and only level payment that brings the balance to zero after nper periods. */
module Annuity {

  /** x raised to a natural power. */
  function Pow(x: real, n: nat): real
  {
    if n == 0 then 1.0 else x * Pow(x, n - 1)
  }

  /** pmt divides by nper when the rate is 0 and by (1 + rate)^nper - 1 otherwise. */
  predicate PmtDefined(rate: real, nper: int)
  {
    nper > 0 && (rate == 0.0 || Pow(1.0 + rate, nper) != 1.0)
  }

  /** pmt(rate, nper, pv): the payment per period, positive when pv (the amount borrowed,
      with the lender's sign convention) is negative. */
  function Pmt(rate: real, nper: int, pv: real): (p: real)
    requires PmtDefined(rate, nper)
    // at a zero rate, nper payments add up to the amount borrowed
    ensures rate == 0.0 ==> p * nper as real == -pv
    // otherwise the payments, grown to the final period, match the grown amount borrowed:
    // p * ((1+r)^n - 1) / r == -pv * (1+r)^n
    ensures rate != 0.0 ==> p * (Pow(1.0 + rate, nper) - 1.0) == -pv * Pow(1.0 + rate, nper) * rate
  {
    var growth := Pow(1.0 + rate, nper);
    if rate == 0.0 then
      DivMul(-pv, nper as real);
      Payment(rate, nper as real, growth, pv)
    else
      DivMul(-pv * growth * rate, growth - 1.0);
      Payment(rate, nper as real, growth, pv)
  }

  /** Pmt's body with the growth factor (1 + rate)^nper as a parameter, so that the algebra lemmas can work over plain variables. */
  function Payment(rate: real, n: real, growth: real, pv: real): real
    requires rate == 0.0 ==> n != 0.0
    requires rate != 0.0 ==> growth != 1.0
  {
    if rate == 0.0 then -pv / n else -pv * growth * rate / (growth - 1.0)
  }

  /** The balance of a loan after k periods, when interest at `rate` accrues each period
      and `payment` is paid at the end of it. */
  function MonthlyBalance(loan: real, rate: real, payment: real, k: nat): real
  {
    if k == 0 then loan else MonthlyBalance(loan, rate, payment, k - 1) * (1.0 + rate) - payment
  }

  /** The compound growth factor exceeds 1 for a positive rate. */
  lemma {:induction false} PowAboveOne(x: real, n: nat)
    requires x > 1.0 && n > 0
    ensures Pow(x, n) > 1.0
  {
    if n > 1 {
      PowAboveOne(x, n - 1);
      assert x * Pow(x, n - 1) > 1.0 * Pow(x, n - 1);
    }
  }

  /** Every positive rate over a positive number of periods lies in the domain of pmt. */
  lemma PositiveRateDefined(rate: real, nper: int)
    requires rate > 0.0 && nper > 0
    ensures PmtDefined(rate, nper)
  {
    PowAboveOne(1.0 + rate, nper);
  }

  /** Closed form of the balance: r * B(k) = r * L * (1+r)^k - P * ((1+r)^k - 1). */
  lemma {:induction false} BalanceClosedForm(loan: real, rate: real, payment: real, k: nat)
    ensures rate * MonthlyBalance(loan, rate, payment, k)
         == rate * loan * Pow(1.0 + rate, k) - payment * (Pow(1.0 + rate, k) - 1.0)
  {
    if k > 0 {
      BalanceClosedForm(loan, rate, payment, k - 1);
      BalanceClosedFormStep(loan, rate, payment, k);
    }
  }

  /** The closed form carries over from k - 1 periods to k. */
  lemma BalanceClosedFormStep(loan: real, rate: real, payment: real, k: nat)
    requires k > 0
    requires rate * MonthlyBalance(loan, rate, payment, k - 1)
          == rate * loan * Pow(1.0 + rate, k - 1) - payment * (Pow(1.0 + rate, k - 1) - 1.0)
    ensures rate * MonthlyBalance(loan, rate, payment, k)
         == rate * loan * Pow(1.0 + rate, k) - payment * (Pow(1.0 + rate, k) - 1.0)
  {
    ClosedFormAlgebra(loan, rate, payment,
      MonthlyBalance(loan, rate, payment, k - 1), Pow(1.0 + rate, k - 1),
      MonthlyBalance(loan, rate, payment, k), Pow(1.0 + rate, k));
  }

  /** One period of the closed form, over plain variables: b and t stand for the balance
      and the growth factor before the period, b' and t' for those after it. */
  lemma ClosedFormAlgebra(loan: real, rate: real, payment: real, b: real, t: real, b': real, t': real)
    requires rate * b == rate * loan * t - payment * (t - 1.0)
    requires b' == b * (1.0 + rate) - payment && t' == (1.0 + rate) * t
    ensures rate * b' == rate * loan * t' - payment * (t' - 1.0)
  {
    assert rate * (b * (1.0 + rate) - payment) == (rate * b) * (1.0 + rate) - rate * payment;
  }

  /** At a zero rate the balance falls by the payment each period: B(k) = L - k * P. */
  lemma {:induction false} BalanceAtZeroRate(loan: real, payment: real, k: nat)
    ensures MonthlyBalance(loan, 0.0, payment, k) == loan - k as real * payment
  {
    if k > 0 {
      BalanceAtZeroRate(loan, payment, k - 1);
      assert k as real * payment == (k - 1) as real * payment + payment;
    }
  }

  /** A level payment retires a loan of `loan` in exactly nper periods if and only if it is
      pmt(rate, nper, -loan): the payment pmt computes is the amortising one, and the only one. */
  lemma PmtAmortises(rate: real, nper: int, loan: real, payment: real)
    requires PmtDefined(rate, nper)
    ensures MonthlyBalance(loan, rate, payment, nper) == 0.0 <==> payment == Pmt(rate, nper, -loan)
  {
    var n := nper as real;
    var b := MonthlyBalance(loan, rate, payment, nper);
    if rate == 0.0 {
      BalanceAtZeroRate(loan, payment, nper);
      ZeroRateSolution(loan, payment, n, Pow(1.0 + rate, nper), b);
    } else {
      var t := Pow(1.0 + rate, nper);
      BalanceClosedForm(loan, rate, payment, nper);
      RateSolution(loan, rate, payment, n, t, b);
    }
  }

  lemma ZeroRateSolution(loan: real, payment: real, n: real, t: real, b: real)
    requires n > 0.0 && b == loan - n * payment
    ensures b == 0.0 <==> payment == Payment(0.0, n, t, -loan)
  {
    if b == 0.0 {
      assert payment * n == loan;
    }
  }

  lemma RateSolution(loan: real, rate: real, payment: real, n: real, t: real, b: real)
    requires rate != 0.0 && t != 1.0
    requires rate * b == rate * loan * t - payment * (t - 1.0)
    ensures b == 0.0 <==> payment == Payment(rate, n, t, -loan)
  {
    var p := -(-loan) * t * rate / (t - 1.0);
    DivMul(-(-loan) * t * rate, t - 1.0);
    assert p * (t - 1.0) == rate * loan * t;
    if b == 0.0 {
      assert payment * (t - 1.0) == p * (t - 1.0);
      MulCancel(payment, p, t - 1.0);
    } else {
      assert rate * b != 0.0;
    }
  }

  lemma DivMul(x: real, d: real)
    requires d != 0.0
    ensures (x / d) * d == x
  {
  }

  lemma MulCancel(x: real, y: real, d: real)
    requires d != 0.0 && x * d == y * d
    ensures x == y
  {
    assert (x - y) * d == 0.0;
  }

  /** At a positive rate, pmt is the textbook annuity formula r * PV / (1 - (1 + r)^-n). */
  lemma PmtAnnuityFormula(rate: real, nper: int, loan: real)
    requires rate > 0.0 && nper > 0
    ensures Pow(1.0 + rate, nper) > 1.0 && PmtDefined(rate, nper)
    ensures Pmt(rate, nper, -loan) == rate * loan / (1.0 - 1.0 / Pow(1.0 + rate, nper))
  {
    PositiveRateDefined(rate, nper);
    PowAboveOne(1.0 + rate, nper);
    AnnuityAlgebra(rate, nper as real, loan, Pow(1.0 + rate, nper));
  }

  lemma AnnuityAlgebra(rate: real, n: real, loan: real, t: real)
    requires rate != 0.0 && t > 1.0
    ensures Payment(rate, n, t, -loan) == rate * loan / (1.0 - 1.0 / t)
  {
    var d := 1.0 - 1.0 / t;
    var q := rate * loan / d;
    DivMul(1.0, t);
    assert d * t == t - 1.0;
    assert d != 0.0;
    DivMul(rate * loan, d);
    assert q * (t - 1.0) == (q * d) * t;
    DivMul(-(-loan) * t * rate, t - 1.0);
    MulCancel(Payment(rate, n, t, -loan), q, t - 1.0);
  }

  /** At a positive rate, each payment exceeds one period's interest on a positive loan:
      part of it always repays principal. */
  lemma PmtExceedsInterest(rate: real, nper: int, loan: real)
    requires rate > 0.0 && nper > 0 && loan > 0.0
    ensures PmtDefined(rate, nper)
    ensures Pmt(rate, nper, -loan) > rate * loan
  {
    PositiveRateDefined(rate, nper);
    PowAboveOne(1.0 + rate, nper);
    ExceedsAlgebra(rate, nper as real, loan, Pow(1.0 + rate, nper));
  }

  lemma ExceedsAlgebra(rate: real, n: real, loan: real, t: real)
    requires rate > 0.0 && loan > 0.0 && t > 1.0
    ensures Payment(rate, n, t, -loan) > rate * loan
  {
    var i := rate * loan;
    var q := -(-loan) * t * rate / (t - 1.0);
    assert i > 0.0;
    DivMul(-(-loan) * t * rate, t - 1.0);
    assert q * (t - 1.0) == i * t;
  }
}
