/** The calculator object: the four scenario values it holds, how it obtains
    them from the readers, and the two report routines, which walk the years
    and months with nested loops over the values it holds. */
module Calculator {
  import opened Validation
  import opened Compounding

  /** The scenario values the readers guarantee: amounts and rate between 0
      and their upper bounds, and a year count between 1 and 10000. */
  predicate ValidScenario(initial: real, deposit: real, annualRate: real, years: int)
  {
    0.0 <= initial <= AmountMax && 0.0 <= deposit <= AmountMax &&
    0.0 <= annualRate <= RateMax && YearsMin <= years <= YearsMax
  }

  class InvestmentCalculator {
    var initialInvestment: real
    var monthlyDeposit: real
    /** Annual rate in percent: 5.0 means 5%. */
    var annualInterestRate: real
    var numberOfYears: int

    predicate Valid()
      reads this
    {
      ValidScenario(initialInvestment, monthlyDeposit, annualInterestRate, numberOfYears)
    }

    /** Starts with nothing invested, no deposit, a zero rate and one year. */
    constructor()
      ensures initialInvestment == 0.0 && monthlyDeposit == 0.0
      ensures annualInterestRate == 0.0 && numberOfYears == 1
      ensures Valid()
    {
      initialInvestment := 0.0;
      monthlyDeposit := 0.0;
      annualInterestRate := 0.0;
      numberOfYears := 1;
    }

    /** Reads, from `script` in this order, the initial investment, the
        monthly deposit, the annual rate (at most 10000 percent) and the
        number of years, each with its reader, and stores each value as soon
        as it is read. Each reader starts where the previous one stopped;
        `depositFrom`, `rateFrom` and `yearsFrom` are those positions.
        `complete` is false exactly when one of the readers runs out of
        attempts, every attempt left to it having been rejected; the
        program would go on prompting then. */
    method GetUserInput(script: seq<Attempt>)
      returns (complete: bool, used: nat, ghost depositFrom: nat, ghost rateFrom: nat, ghost yearsFrom: nat)
      modifies this
      ensures used <= |script|
      ensures !complete ==> used == |script|
      ensures complete ==> Valid()
      ensures complete ==>
                AmountReadBetween(script, 0, depositFrom, AmountMax, initialInvestment) &&
                AmountReadBetween(script, depositFrom, rateFrom, AmountMax, monthlyDeposit) &&
                AmountReadBetween(script, rateFrom, yearsFrom, RateMax, annualInterestRate) &&
                IntegerReadBetween(script, yearsFrom, used, YearsMin, YearsMax, numberOfYears)
      ensures !complete ==>
                AmountRejectedFrom(script, 0, AmountMax) ||
                (AmountReadBetween(script, 0, depositFrom, AmountMax, initialInvestment) &&
                 AmountRejectedFrom(script, depositFrom, AmountMax)) ||
                (AmountReadBetween(script, 0, depositFrom, AmountMax, initialInvestment) &&
                 AmountReadBetween(script, depositFrom, rateFrom, AmountMax, monthlyDeposit) &&
                 AmountRejectedFrom(script, rateFrom, RateMax)) ||
                (AmountReadBetween(script, 0, depositFrom, AmountMax, initialInvestment) &&
                 AmountReadBetween(script, depositFrom, rateFrom, AmountMax, monthlyDeposit) &&
                 AmountReadBetween(script, rateFrom, yearsFrom, RateMax, annualInterestRate) &&
                 IntegerRejectedFrom(script, yearsFrom, YearsMin, YearsMax))
    {
      complete, used, depositFrom, rateFrom, yearsFrom := false, 0, 0, 0, 0;
      var initial, n1 := ReadNonNegativeDouble(script, AmountMax);
      used := n1;
      if initial.None? { return; }
      initialInvestment := initial.value;
      depositFrom := used;

      var deposit, n2 := ReadNonNegativeDouble(script[used..], AmountMax);
      used := used + n2;
      if deposit.None? {
        ShiftedAmountRejection(script, depositFrom, AmountMax);
        return;
      }
      monthlyDeposit := deposit.value;
      rateFrom := used;
      ShiftedAmountRead(script, depositFrom, n2, AmountMax, monthlyDeposit);

      var rate, n3 := ReadNonNegativeDouble(script[used..], RateMax);
      used := used + n3;
      if rate.None? {
        ShiftedAmountRejection(script, rateFrom, RateMax);
        return;
      }
      annualInterestRate := rate.value;
      yearsFrom := used;
      ShiftedAmountRead(script, rateFrom, n3, RateMax, annualInterestRate);

      var years, n4 := ReadPositiveInt(script[used..], YearsMin, YearsMax);
      used := used + n4;
      if years.None? {
        ShiftedIntegerRejection(script, yearsFrom, YearsMin, YearsMax);
        return;
      }
      numberOfYears := years.value;
      ShiftedIntegerRead(script, yearsFrom, n4, YearsMin, YearsMax, numberOfYears);
      complete := true;
    }

    /** The yearly report without deposits: one row per year, each after
        twelve months of interest on the running balance. */
    method NoMonthlyDepositsReport() returns (rows: seq<YearRow>)
      ensures rows == Report(initialInvestment, 0.0, MonthlyRate(annualInterestRate), numberOfYears)
    {
      var monthlyRate := (annualInterestRate / 100.0) / 12.0;
      var currentBalance := initialInvestment;
      rows := [];
      var year := 1;
      while year <= numberOfYears
        invariant 1 <= year && (year <= numberOfYears + 1 || year == 1)
        invariant currentBalance == YearEnd(initialInvestment, 0.0, monthlyRate, year - 1)
        invariant rows == Report(initialInvestment, 0.0, monthlyRate, year - 1)
      {
        var yearlyInterest := 0.0;
        for m := 0 to MonthsPerYear
          invariant Accrual(currentBalance, yearlyInterest)
                    == Months(YearEnd(initialInvestment, 0.0, monthlyRate, year - 1), 0.0, monthlyRate, m)
        {
          var monthlyInterest := currentBalance * monthlyRate;
          yearlyInterest := yearlyInterest + monthlyInterest;
          currentBalance := currentBalance + monthlyInterest;
        }
        rows := rows + [YearRow(year, currentBalance, yearlyInterest)];
        year := year + 1;
      }
    }

    /** The yearly report with deposits: as without them, except that every
        month first adds the monthly deposit and then earns interest on the
        result. */
    method WithMonthlyDepositsReport() returns (rows: seq<YearRow>)
      ensures rows == Report(initialInvestment, monthlyDeposit, MonthlyRate(annualInterestRate), numberOfYears)
    {
      var monthlyRate := (annualInterestRate / 100.0) / 12.0;
      var currentBalance := initialInvestment;
      rows := [];
      var year := 1;
      while year <= numberOfYears
        invariant 1 <= year && (year <= numberOfYears + 1 || year == 1)
        invariant currentBalance == YearEnd(initialInvestment, monthlyDeposit, monthlyRate, year - 1)
        invariant rows == Report(initialInvestment, monthlyDeposit, monthlyRate, year - 1)
      {
        var yearlyInterest := 0.0;
        for m := 0 to MonthsPerYear
          invariant Accrual(currentBalance, yearlyInterest)
                    == Months(YearEnd(initialInvestment, monthlyDeposit, monthlyRate, year - 1),
                              monthlyDeposit, monthlyRate, m)
        {
          currentBalance := currentBalance + monthlyDeposit;
          var monthlyInterest := currentBalance * monthlyRate;
          yearlyInterest := yearlyInterest + monthlyInterest;
          currentBalance := currentBalance + monthlyInterest;
        }
        rows := rows + [YearRow(year, currentBalance, yearlyInterest)];
        year := year + 1;
      }
    }
  }

  /** A reader run over the suffix `script[from..]` that used `n` attempts
      is the run `script[from..from + n]` of the whole script. */
  lemma ShiftedAmountRead(script: seq<Attempt>, from: nat, n: nat, max: real, value: real)
    requires from <= |script|
    requires 0 < n <= |script| - from
    requires AmountVerdict(script[from..][n - 1], max) == Accepted(value)
    requires forall j :: 0 <= j < n - 1 ==> AmountVerdict(script[from..][j], max).Rejected?
    ensures AmountReadBetween(script, from, from + n, max, value)
  {
    forall j | from <= j < from + n - 1
      ensures AmountVerdict(script[j], max).Rejected?
    {
      assert script[j] == script[from..][j - from];
    }
  }

  /** An amount reader over the suffix `script[from..]` that rejected every
      attempt leaves every attempt of the whole script from `from` rejected. */
  lemma ShiftedAmountRejection(script: seq<Attempt>, from: nat, max: real)
    requires from <= |script|
    requires forall j :: 0 <= j < |script| - from ==> AmountVerdict(script[from..][j], max).Rejected?
    ensures AmountRejectedFrom(script, from, max)
  {
    forall j | from <= j < |script|
      ensures AmountVerdict(script[j], max).Rejected?
    {
      assert script[j] == script[from..][j - from];
    }
  }

  /** The integer reader's counterpart of ShiftedAmountRejection. */
  lemma ShiftedIntegerRejection(script: seq<Attempt>, from: nat, min: int, max: int)
    requires from <= |script|
    requires forall j :: 0 <= j < |script| - from ==> IntegerVerdict(script[from..][j], min, max).Rejected?
    ensures IntegerRejectedFrom(script, from, min, max)
  {
    forall j | from <= j < |script|
      ensures IntegerVerdict(script[j], min, max).Rejected?
    {
      assert script[j] == script[from..][j - from];
    }
  }

  /** The integer reader's counterpart of ShiftedAmountRead. */
  lemma ShiftedIntegerRead(script: seq<Attempt>, from: nat, n: nat, min: int, max: int, value: int)
    requires from <= |script|
    requires 0 < n <= |script| - from
    requires IntegerVerdict(script[from..][n - 1], min, max) == Accepted(value)
    requires forall j :: 0 <= j < n - 1 ==> IntegerVerdict(script[from..][j], min, max).Rejected?
    ensures IntegerReadBetween(script, from, from + n, min, max, value)
  {
    forall j | from <= j < from + n - 1
      ensures IntegerVerdict(script[j], min, max).Rejected?
    {
      assert script[j] == script[from..][j - from];
    }
  }

  /** What the two reports promise for every scenario the readers can
      deliver: exactly `years` rows each, numbered 1 to `years`, with
      non-negative interest and balances that never decrease, starting from
      the initial investment. */
  lemma ValidScenarioReports(initial: real, deposit: real, annualRate: real, years: int)
    requires ValidScenario(initial, deposit, annualRate, years)
    ensures var plain := Report(initial, 0.0, MonthlyRate(annualRate), years);
            var withDeposits := Report(initial, deposit, MonthlyRate(annualRate), years);
            |plain| == years && |withDeposits| == years &&
            (forall i :: 0 <= i < years ==> plain[i].year == i + 1 && withDeposits[i].year == i + 1) &&
            (forall i :: 0 <= i < years ==>
               0.0 <= plain[i].interest && Opening(initial, plain, i) <= plain[i].balance) &&
            (forall i :: 0 <= i < years ==>
               0.0 <= withDeposits[i].interest && Opening(initial, withDeposits, i) <= withDeposits[i].balance)
  {
    var rate := MonthlyRate(annualRate);
    YearsAreNumberedInOrder(initial, 0.0, rate, years);
    YearsAreNumberedInOrder(initial, deposit, rate, years);
    ReportGrows(initial, 0.0, rate, years);
    ReportGrows(initial, deposit, rate, years);
  }
}
