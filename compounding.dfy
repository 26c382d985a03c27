/** The projection engine of the investment calculator: monthly compounding
    of a balance over whole years, with or without a deposit at the start of
    every month. Amounts are exact reals; the model says nothing about
    floating-point rounding. */
module Compounding {

  /** One line of a yearly report: the year, the balance at its end and the
      interest earned during that year alone. */
  datatype YearRow = YearRow(year: int, balance: real, interest: real)

  /** Where a run of monthly steps ends: the balance reached and the interest
      earned along the way. */
  datatype Accrual = Accrual(balance: real, interest: real)

  /** Every report year applies exactly this many monthly steps. */
  const MonthsPerYear: nat := 12

  /** The monthly rate applied for an annual interest rate given in percent. */
  function MonthlyRate(annualPercent: real): (rate: real)
    ensures rate * 1200.0 == annualPercent
    ensures rate == 0.0 <==> annualPercent == 0.0
    ensures 0.0 <= annualPercent ==> 0.0 <= rate
  {
    (annualPercent / 100.0) / 12.0
  }

  /** One month: the deposit is added first, then the month's interest is
      earned on the funded balance and added to both the balance and the
      running interest. */
  function MonthStep(before: Accrual, deposit: real, rate: real): Accrual
  {
    var funded := before.balance + deposit;
    Accrual(funded + funded * rate, before.interest + funded * rate)
  }

  /** The accrual after `months` monthly steps from `start`, with no interest
      earned yet. A report without deposits is the case `deposit == 0.0`. */
  function Months(start: real, deposit: real, rate: real, months: nat): Accrual
  {
    if months == 0 then Accrual(start, 0.0)
    else MonthStep(Months(start, deposit, rate, months - 1), deposit, rate)
  }

  /** The balance at the end of year `years` (the initial amount for year 0). */
  function YearEnd(initial: real, deposit: real, rate: real, years: nat): real
  {
    if years == 0 then initial
    else Months(YearEnd(initial, deposit, rate, years - 1), deposit, rate, MonthsPerYear).balance
  }

  /** The report row of year `year`: twelve months from the previous year's
      end balance, with that year's interest only. */
  function RowOfYear(initial: real, deposit: real, rate: real, year: nat): YearRow
    requires 1 <= year
  {
    var a := Months(YearEnd(initial, deposit, rate, year - 1), deposit, rate, MonthsPerYear);
    YearRow(year, a.balance, a.interest)
  }

  /** The rows a report emits for `years` years, first year first. A year
      count below one emits nothing. */
  function Report(initial: real, deposit: real, rate: real, years: int): seq<YearRow>
    decreases years
  {
    if years <= 0 then []
    else Report(initial, deposit, rate, years - 1) + [RowOfYear(initial, deposit, rate, years)]
  }

  /** `base` raised to the power `n`. */
  function Power(base: real, n: nat): real
  {
    if n == 0 then 1.0 else Power(base, n - 1) * base
  }

  /** An independent statement of monthly compounding: each month the
      funded balance is multiplied by `1 + rate`. */
  function Compounded(start: real, deposit: real, rate: real, months: nat): real
  {
    if months == 0 then start
    else (Compounded(start, deposit, rate, months - 1) + deposit) * (1.0 + rate)
  }

  /** The sum of the interest column of a report. */
  function InterestSum(rows: seq<YearRow>): real
  {
    if rows == [] then 0.0 else InterestSum(rows[..|rows| - 1]) + rows[|rows| - 1].interest
  }

  // ---------------------------------------------------------------------
  // Properties of a run of months
  // ---------------------------------------------------------------------

  /** Whatever the rate, the balance grows by exactly the deposits plus the
      interest earned. */
  lemma {:induction false} BalanceIsDepositsPlusInterest(start: real, deposit: real, rate: real, months: nat)
    ensures Months(start, deposit, rate, months).balance
         == start + (months as real) * deposit + Months(start, deposit, rate, months).interest
  {
    if months > 0 {
      BalanceIsDepositsPlusInterest(start, deposit, rate, months - 1);
      assert (months as real) * deposit == ((months - 1) as real) * deposit + deposit;
    }
  }

  /** At a zero rate no interest is earned and only the deposits accumulate. */
  lemma {:induction false} MonthsAtZeroRate(start: real, deposit: real, months: nat)
    ensures Months(start, deposit, 0.0, months) == Accrual(start + (months as real) * deposit, 0.0)
  {
    if months > 0 {
      MonthsAtZeroRate(start, deposit, months - 1);
      assert (months as real) * deposit == ((months - 1) as real) * deposit + deposit;
    }
  }

  /** With nothing negative going in, the interest earned is never negative
      and the balance never falls below the start plus the deposits. */
  lemma {:induction false} MonthsGrow(start: real, deposit: real, rate: real, months: nat)
    requires 0.0 <= start && 0.0 <= deposit && 0.0 <= rate
    ensures 0.0 <= Months(start, deposit, rate, months).interest
    ensures start + (months as real) * deposit <= Months(start, deposit, rate, months).balance
  {
    if months > 0 {
      MonthsGrow(start, deposit, rate, months - 1);
      BalanceIsDepositsPlusInterest(start, deposit, rate, months - 1);
      var before := Months(start, deposit, rate, months - 1);
      var funded := before.balance + deposit;
      assert 0.0 <= funded;
      assert 0.0 <= funded * rate;
      assert (months as real) * deposit == ((months - 1) as real) * deposit + deposit;
    }
  }

  /** Running `first` months and then `second` more from where they ended is
      the same as running `first + second` months; the interest adds up. */
  lemma {:induction false} MonthsCompose(start: real, deposit: real, rate: real, first: nat, second: nat)
    ensures var a := Months(start, deposit, rate, first);
            var b := Months(a.balance, deposit, rate, second);
            Months(start, deposit, rate, first + second) == Accrual(b.balance, a.interest + b.interest)
  {
    if second > 0 {
      MonthsCompose(start, deposit, rate, first, second - 1);
      var a := Months(start, deposit, rate, first);
      assert first + second - 1 == first + (second - 1);
      StepCarriesInterest(Months(a.balance, deposit, rate, second - 1), a.interest, deposit, rate);
    }
  }

  /** Interest already earned is carried through a month unchanged. */
  lemma StepCarriesInterest(before: Accrual, earlier: real, deposit: real, rate: real)
    ensures var after := MonthStep(before, deposit, rate);
            MonthStep(Accrual(before.balance, earlier + before.interest), deposit, rate)
            == Accrual(after.balance, earlier + after.interest)
  {
  }

  /** The balance with deposits is the balance the start reaches without
      them plus what the deposits alone grow to. */
  lemma {:induction false} DepositsAddUp(start: real, deposit: real, rate: real, months: nat)
    ensures Months(start, deposit, rate, months).balance
         == Months(start, 0.0, rate, months).balance + Months(0.0, deposit, rate, months).balance
  {
    if months > 0 {
      DepositsAddUp(start, deposit, rate, months - 1);
      FundedSum(Months(start, 0.0, rate, months - 1), Months(0.0, deposit, rate, months - 1),
                Months(start, deposit, rate, months - 1), deposit, rate);
    }
  }

  /** One month of DepositsAddUp: a month's step is additive in the balance
      it starts from. */
  lemma FundedSum(alone: Accrual, deposits: Accrual, both: Accrual, deposit: real, rate: real)
    requires both.balance == alone.balance + deposits.balance
    ensures MonthStep(both, deposit, rate).balance
         == MonthStep(alone, 0.0, rate).balance + MonthStep(deposits, deposit, rate).balance
  {
    var x, y := alone.balance, deposits.balance;
    assert ((x + y) + deposit) * rate == x * rate + (y + deposit) * rate;
  }

  /** Adding `balance * rate` to the balance, as the monthly step does, is
      multiplying the funded balance by `1 + rate`. */
  lemma {:induction false} MonthsAreCompounded(start: real, deposit: real, rate: real, months: nat)
    ensures Months(start, deposit, rate, months).balance == Compounded(start, deposit, rate, months)
  {
    if months > 0 {
      MonthsAreCompounded(start, deposit, rate, months - 1);
      CompoundStep(Months(start, deposit, rate, months - 1), Compounded(start, deposit, rate, months - 1), deposit, rate);
    }
  }

  /** One month of MonthsAreCompounded. */
  lemma CompoundStep(before: Accrual, compounded: real, deposit: real, rate: real)
    requires before.balance == compounded
    ensures MonthStep(before, deposit, rate).balance == (compounded + deposit) * (1.0 + rate)
  {
  }

  /** Without deposits, compounding for `months` months multiplies the start
      by `(1 + rate)` raised to `months`. */
  lemma {:induction false} CompoundedWithoutDeposits(start: real, rate: real, months: nat)
    ensures Compounded(start, 0.0, rate, months) == start * Power(1.0 + rate, months)
  {
    if months > 0 {
      CompoundedWithoutDeposits(start, rate, months - 1);
      PowerStep(Compounded(start, 0.0, rate, months - 1), start, Power(1.0 + rate, months - 1), 1.0 + rate);
    }
  }

  /** One month of CompoundedWithoutDeposits, on plain numbers. */
  lemma PowerStep(compounded: real, start: real, p: real, growth: real)
    requires compounded == start * p
    ensures (compounded + 0.0) * growth == start * (p * growth)
  {
  }

  // ---------------------------------------------------------------------
  // Properties of a report
  // ---------------------------------------------------------------------

  /** The balance that row `i` of `rows` starts its year from: the previous
      row's balance, or the initial amount for the first row. */
  function Opening(initial: real, rows: seq<YearRow>, i: nat): real
    requires i < |rows|
  {
    if i == 0 then initial else rows[i - 1].balance
  }

  /** A report has one row per year, the row at index `i` being year `i + 1`. */
  lemma {:induction false} ReportRows(initial: real, deposit: real, rate: real, years: int)
    ensures |Report(initial, deposit, rate, years)| == if years < 0 then 0 else years
    ensures forall i :: 0 <= i < |Report(initial, deposit, rate, years)| ==>
              Report(initial, deposit, rate, years)[i] == RowOfYear(initial, deposit, rate, i + 1)
  {
    if years > 0 {
      ReportRows(initial, deposit, rate, years - 1);
    }
  }

  /** The years of a report are 1, 2, ..., `years`, in that order. */
  lemma {:induction false} YearsAreNumberedInOrder(initial: real, deposit: real, rate: real, years: int)
    ensures |Report(initial, deposit, rate, years)| == if years < 0 then 0 else years
    ensures forall i :: 0 <= i < |Report(initial, deposit, rate, years)| ==>
              Report(initial, deposit, rate, years)[i].year == i + 1
  {
    ReportRows(initial, deposit, rate, years);
  }

  /** Each row's balance is the balance it opened with plus the year's
      twelve deposits plus the interest the row reports. */
  lemma ReportBalanceRule(initial: real, deposit: real, rate: real, years: int)
    ensures forall i :: 0 <= i < |Report(initial, deposit, rate, years)| ==>
              Report(initial, deposit, rate, years)[i].balance
              == Opening(initial, Report(initial, deposit, rate, years), i)
                 + (MonthsPerYear as real) * deposit + Report(initial, deposit, rate, years)[i].interest
  {
    var rows := Report(initial, deposit, rate, years);
    ReportRows(initial, deposit, rate, years);
    forall i | 0 <= i < |rows|
      ensures rows[i].balance == Opening(initial, rows, i) + (MonthsPerYear as real) * deposit + rows[i].interest
    {
      assert i > 0 ==> rows[i - 1].balance == YearEnd(initial, deposit, rate, i);
      BalanceIsDepositsPlusInterest(YearEnd(initial, deposit, rate, i), deposit, rate, MonthsPerYear);
    }
  }

  /** At a zero rate the end of year `years` holds the initial amount plus
      twelve deposits per year. */
  lemma {:induction false} YearEndAtZeroRate(initial: real, deposit: real, years: nat)
    ensures YearEnd(initial, deposit, 0.0, years) == initial + 12.0 * (years as real) * deposit
  {
    if years > 0 {
      YearEndAtZeroRate(initial, deposit, years - 1);
      MonthsAtZeroRate(YearEnd(initial, deposit, 0.0, years - 1), deposit, MonthsPerYear);
      assert 12.0 * (years as real) * deposit == 12.0 * ((years - 1) as real) * deposit + 12.0 * deposit;
    }
  }

  /** At a zero rate every row reports no interest and the balance of year
      `n` is the initial amount plus `12 * n` deposits; without deposits the
      balance stays the initial amount. */
  lemma ReportAtZeroRate(initial: real, deposit: real, years: int)
    ensures var rows := Report(initial, deposit, 0.0, years);
            forall i :: 0 <= i < |rows| ==>
              rows[i].interest == 0.0 &&
              rows[i].balance == initial + 12.0 * ((i + 1) as real) * deposit
    ensures forall i :: 0 <= i < |Report(initial, 0.0, 0.0, years)| ==>
              Report(initial, 0.0, 0.0, years)[i] == YearRow(i + 1, initial, 0.0)
  {
    ReportRows(initial, deposit, 0.0, years);
    ReportRows(initial, 0.0, 0.0, years);
    forall i | 0 <= i < |Report(initial, deposit, 0.0, years)|
      ensures Report(initial, deposit, 0.0, years)[i].interest == 0.0
      ensures Report(initial, deposit, 0.0, years)[i].balance == initial + 12.0 * ((i + 1) as real) * deposit
    {
      YearEndAtZeroRate(initial, deposit, i);
      MonthsAtZeroRate(YearEnd(initial, deposit, 0.0, i), deposit, MonthsPerYear);
      YearEndAtZeroRate(initial, deposit, i + 1);
    }
    forall i | 0 <= i < |Report(initial, 0.0, 0.0, years)|
      ensures Report(initial, 0.0, 0.0, years)[i] == YearRow(i + 1, initial, 0.0)
    {
      YearEndAtZeroRate(initial, 0.0, i);
      MonthsAtZeroRate(YearEnd(initial, 0.0, 0.0, i), 0.0, MonthsPerYear);
    }
  }

  /** With a non-negative initial amount, deposit and rate, every row
      reports non-negative interest and the balances never decrease: neither
      from the initial amount to the first row nor from one row to the next. */
  lemma ReportGrows(initial: real, deposit: real, rate: real, years: int)
    requires 0.0 <= initial && 0.0 <= deposit && 0.0 <= rate
    ensures forall i :: 0 <= i < |Report(initial, deposit, rate, years)| ==>
              0.0 <= Report(initial, deposit, rate, years)[i].interest &&
              Opening(initial, Report(initial, deposit, rate, years), i) <= Report(initial, deposit, rate, years)[i].balance
  {
    var rows := Report(initial, deposit, rate, years);
    ReportRows(initial, deposit, rate, years);
    forall i | 0 <= i < |rows|
      ensures 0.0 <= rows[i].interest && Opening(initial, rows, i) <= rows[i].balance
    {
      assert i > 0 ==> rows[i - 1].balance == YearEnd(initial, deposit, rate, i);
      YearEndIsNonNegative(initial, deposit, rate, i);
      MonthsGrow(YearEnd(initial, deposit, rate, i), deposit, rate, MonthsPerYear);
    }
  }

  /** No year ends below zero when nothing negative goes in. */
  lemma {:induction false} YearEndIsNonNegative(initial: real, deposit: real, rate: real, years: nat)
    requires 0.0 <= initial && 0.0 <= deposit && 0.0 <= rate
    ensures 0.0 <= YearEnd(initial, deposit, rate, years)
  {
    if years > 0 {
      YearEndIsNonNegative(initial, deposit, rate, years - 1);
      MonthsGrow(YearEnd(initial, deposit, rate, years - 1), deposit, rate, MonthsPerYear);
    }
  }

  /** Years are consecutive runs of twelve months: the balance at the end of
      year `n` is the balance after `12 * n` monthly steps from the initial
      amount, with nothing reset between years. */
  lemma {:induction false} YearEndIsMonthRun(initial: real, deposit: real, rate: real, years: nat)
    ensures YearEnd(initial, deposit, rate, years) == Months(initial, deposit, rate, MonthsPerYear * years).balance
  {
    if years > 0 {
      YearEndIsMonthRun(initial, deposit, rate, years - 1);
      MonthsCompose(initial, deposit, rate, MonthsPerYear * (years - 1), MonthsPerYear);
    }
  }

  /** Each month's interest is reported in exactly one row: the interest
      column of an `n`-year report adds up to the interest of `12 * n`
      monthly steps. */
  lemma {:induction false} ReportInterestAddsUp(initial: real, deposit: real, rate: real, years: nat)
    ensures InterestSum(Report(initial, deposit, rate, years))
         == Months(initial, deposit, rate, MonthsPerYear * years).interest
  {
    if years > 0 {
      var rows := Report(initial, deposit, rate, years);
      assert rows[..|rows| - 1] == Report(initial, deposit, rate, years - 1);
      ReportInterestAddsUp(initial, deposit, rate, years - 1);
      YearEndIsMonthRun(initial, deposit, rate, years - 1);
      MonthsCompose(initial, deposit, rate, MonthsPerYear * (years - 1), MonthsPerYear);
    }
  }

  /** Without deposits, the balance at the end of year `n` is the initial
      amount multiplied by `(1 + rate)` raised to `12 * n`. */
  lemma NoDepositYearEnd(initial: real, rate: real, years: nat)
    ensures YearEnd(initial, 0.0, rate, years) == initial * Power(1.0 + rate, MonthsPerYear * years)
  {
    YearEndIsMonthRun(initial, 0.0, rate, years);
    MonthsAreCompounded(initial, 0.0, rate, MonthsPerYear * years);
    CompoundedWithoutDeposits(initial, rate, MonthsPerYear * years);
  }

  /** The balance after `years` years is additive in the initial amount and
      the deposits. */
  lemma YearEndAddsUp(initial: real, deposit: real, rate: real, years: nat)
    ensures YearEnd(initial, deposit, rate, years)
         == YearEnd(initial, 0.0, rate, years) + YearEnd(0.0, deposit, rate, years)
  {
    YearEndIsMonthRun(initial, deposit, rate, years);
    YearEndIsMonthRun(initial, 0.0, rate, years);
    YearEndIsMonthRun(0.0, deposit, rate, years);
    DepositsAddUp(initial, deposit, rate, MonthsPerYear * years);
  }

  /** The two reports side by side: each balance of the report with deposits
      is the balance of the report without them in the same year plus what
      the deposits alone have grown to by then. */
  lemma DepositReportAddsUp(initial: real, deposit: real, rate: real, years: int)
    ensures |Report(initial, deposit, rate, years)| == |Report(initial, 0.0, rate, years)|
                                                     == |Report(0.0, deposit, rate, years)|
    ensures forall i :: 0 <= i < |Report(initial, deposit, rate, years)| ==>
              Report(initial, deposit, rate, years)[i].balance
              == Report(initial, 0.0, rate, years)[i].balance + Report(0.0, deposit, rate, years)[i].balance
  {
    ReportRows(initial, deposit, rate, years);
    ReportRows(initial, 0.0, rate, years);
    ReportRows(0.0, deposit, rate, years);
    forall i | 0 <= i < |Report(initial, deposit, rate, years)|
      ensures Report(initial, deposit, rate, years)[i].balance
              == Report(initial, 0.0, rate, years)[i].balance + Report(0.0, deposit, rate, years)[i].balance
    {
      YearEndAddsUp(initial, deposit, rate, i + 1);
    }
  }
}
