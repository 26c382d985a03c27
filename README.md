# Investment calculator: projection engine and input validation in Dafny

This project models the core of a command-line compound-interest calculator
(the "Airgead Banking Investment Calculator"). The program holds four
scenario values. They are the initial investment, the monthly deposit, the
annual interest rate in percent and the number of years. It prints two yearly
reports: one without monthly deposits and one with them.

- **Projection engine** (`compounding.dfy`, module `Compounding`): both
  reports start from the initial investment and use the monthly rate
  `(annual / 100) / 12`. They run twelve monthly steps per year. Each step
  adds `balance * rate` to the balance and to that year's interest. The
  deposit variant first adds the deposit to the balance. Each year emits
  one `(year, balance, interest)` row. `Report` is the specification of the
  rows. The lemmas state the row count and numbering, the balance rule, the
  zero-rate behaviour, non-negative interest and non-decreasing balances. They
  also prove that the years are consecutive runs of months, that the interest
  column adds up to the total interest, and that the step agrees with the
  textbook "multiply by `1 + rate`" form. The last group shows that the
  deposit report is the no-deposit report plus what the deposits alone
  grow to.
- **Input validation** (`validation.dfy`, module `Validation`): the
  accept/reject decision of the two line readers is modelled as functions.
  The whitespace skip after the parsed number is a loop. The readers' retry
  loops are modelled over a finite script of read attempts. The standard
  parsers `std::stod` and `std::stoll` are abstract: each line carries what
  they return for it (a value and the index after it, or an exception).
  Bounds: an amount is at most 1e12 by default, the rate at most 10000
  (percent), and the year count lies between 1 and 10000
  (`InvestmentCalculator.h:23-24`, `InvestmentCalculator.cpp:40-43`).
- **The calculator object** (`calculator.dfy`, module `Calculator`): class
  `InvestmentCalculator` has the four fields, the constructor's defaults,
  `GetUserInput` (the four reads in order) and the two report routines. The
  routines are imperative nested loops, proved equal to `Report`.

Amounts are exact reals. Nothing here is about floating-point rounding.

## Model

| member | source | states |
|---|---|---|
| Compounding.MonthlyRate | InvestmentCalculator.cpp:63 | the monthly rate is the annual percentage divided by 1200; it is zero exactly when the annual rate is zero and is non-negative for a non-negative annual rate |
| Compounding.MonthStep | InvestmentCalculator.cpp:84-87 | one month: the deposit is added, then `balance * rate` is added to both the balance and the year's interest (with deposit 0 this is lines 69-71); its properties are the `Months` lemmas below |
| Compounding.Months | InvestmentCalculator.cpp:83-88 | the inner loop: m monthly steps from a start balance with no interest yet; its properties are BalanceIsDepositsPlusInterest, MonthsAtZeroRate, MonthsGrow, MonthsCompose and MonthsAreCompounded |
| Compounding.YearEnd | InvestmentCalculator.cpp:81-90 | the balance carried out of year n, each year being twelve steps from the previous year's end; its properties are YearEndIsMonthRun, YearEndAtZeroRate, YearEndIsNonNegative and NoDepositYearEnd |
| Compounding.RowOfYear | InvestmentCalculator.cpp:82-89 | the row printed for one year: its number, the balance after its twelve months and the interest of those months alone |
| Compounding.Report | InvestmentCalculator.cpp:62-91 | the rows both routines emit, first year first, none for a year count below one; ReportRows, ReportBalanceRule, ReportGrows and the report methods' contracts state its properties |
| Compounding.BalanceIsDepositsPlusInterest | InvestmentCalculator.cpp:83-88 | at any rate, after any number of months the balance equals the start plus one deposit per month plus the interest accumulated |
| Compounding.MonthsAtZeroRate | InvestmentCalculator.cpp:84-87 | at a zero rate no interest is earned and the balance is the start plus one deposit per month |
| Compounding.MonthsGrow | InvestmentCalculator.cpp:84-87 | with non-negative start, deposit and rate, the interest earned is non-negative and the balance is at least the start plus the deposits |
| Compounding.MonthsCompose | InvestmentCalculator.cpp:66-72 | running m months and then n more from the balance reached equals running m + n months; the interest of the two runs adds up |
| Compounding.DepositsAddUp | InvestmentCalculator.cpp:62-91 | the balance with deposits equals the balance without deposits plus the balance the deposits alone reach from zero |
| Compounding.MonthsAreCompounded | InvestmentCalculator.cpp:84-87 | adding `balance * rate` each month equals multiplying the funded balance by `1 + rate` each month |
| Compounding.CompoundedWithoutDeposits | InvestmentCalculator.cpp:68-72 | without deposits, m months multiply the start by `(1 + rate)` to the power m |
| Compounding.ReportRows | InvestmentCalculator.cpp:66-74 | a report for n years has n rows (none for n below one), and row i is year i + 1 computed from the previous year's end balance |
| Compounding.YearsAreNumberedInOrder | InvestmentCalculator.cpp:62-91 | the rows' years are 1, 2, ..., n in ascending order |
| Compounding.ReportBalanceRule | InvestmentCalculator.cpp:62-91 | each row's balance is the previous row's balance (the initial investment for the first row) plus twelve deposits plus that row's interest; without deposits, previous balance plus interest |
| Compounding.YearEndAtZeroRate | InvestmentCalculator.cpp:78-88 | at a zero rate the balance after year n is the initial investment plus 12 * n deposits |
| Compounding.ReportAtZeroRate | InvestmentCalculator.cpp:62-91 | at a zero rate every row's interest is 0 and year n's balance is the initial investment plus 12 * n deposits; without deposits every row is (year, initial investment, 0) |
| Compounding.ReportGrows | InvestmentCalculator.cpp:62-91 | with non-negative initial investment, deposit and rate, every row's interest is non-negative and the balance never decreases, from the initial investment to the first row or from row to row |
| Compounding.YearEndIsNonNegative | InvestmentCalculator.cpp:79-88 | with non-negative inputs no year ends with a negative balance |
| Compounding.YearEndIsMonthRun | InvestmentCalculator.cpp:66-72 | the balance after year n is the balance after 12 * n consecutive monthly steps; nothing is reset between years except the yearly interest |
| Compounding.ReportInterestAddsUp | InvestmentCalculator.cpp:67-73 | the interest column of an n-year report sums to the interest of all 12 * n months, so each month's interest is in exactly one row |
| Compounding.NoDepositYearEnd | InvestmentCalculator.cpp:62-75 | without deposits, the balance after year n is the initial investment times `(1 + rate)` to the power 12 * n |
| Compounding.YearEndAddsUp | InvestmentCalculator.cpp:77-91 | each year-end balance with deposits is the year-end balance without deposits plus the year-end balance of the deposits alone |
| Compounding.DepositReportAddsUp | InvestmentCalculator.cpp:62-91 | the two reports have the same length, and each balance of the deposit report is the no-deposit report's balance for that year plus the deposits-only balance |
| Validation.IsSpace | InvestmentCalculator.cpp:127-155 | `std::isspace` in the "C" locale, used by both skip loops: space, tab, line feed, vertical tab, form feed and carriage return |
| Validation.LessThan | InvestmentCalculator.cpp:129 | the IEEE-754 comparison `value < 0.0` (and any `x < bound`): true for a finite value below the bound and for negative infinity, false for NaN |
| Validation.GreaterThan | InvestmentCalculator.cpp:133 | the IEEE-754 comparison `value > max`: true for a finite value above the bound and for positive infinity, false for NaN |
| Validation.SkipSpaces | InvestmentCalculator.cpp:127-155 | the white-space skip loop after the parsed number (line 127 for amounts, line 155 for whole numbers) stops at the first non-space character, and it reaches the end of the line exactly when only white space follows the number |
| Validation.AmountVerdictAsWritten | InvestmentCalculator.cpp:126-137 | the amount decision as written: it accepts exactly when a number was parsed, only white space follows it, and neither `value < 0` nor `value > max` holds; the accepted value is the parsed one |
| Validation.AmountVerdict | InvestmentCalculator.cpp:126-137 | the amount decision with NaN rejected: it accepts exactly a finite parsed number between 0 and max followed by white space; it rejects as Negative exactly the blank-terminated numbers below zero and as TooLarge exactly those above max |
| Validation.IntegerVerdict | InvestmentCalculator.cpp:154-161 | the integer decision accepts exactly a parsed whole number between min and max followed only by white space; it rejects as OutOfRange exactly the blank-terminated numbers outside [min, max] |
| Validation.CorrectionOnlyRejectsNaN | InvestmentCalculator.cpp:126-137 | a NaN followed by nothing but white space is accepted as written and rejected by the correction; on every other attempt, including a NaN followed by other characters, the two decisions agree |
| Validation.NaNAcceptedAsWritten | InvestmentCalculator.cpp:126-137 | the line "nan" is accepted as an amount by the code as written and rejected by the corrected decision |
| Validation.ReadNonNegativeDouble | InvestmentCalculator.cpp:116-142 | the reader returns the value of the first attempt the amount decision accepts, which lies in [0, max]; every earlier attempt (end of input, parse error, trailing characters, negative, too large) was rejected and retried; when no attempt is accepted it returns nothing |
| Validation.ReadPositiveInt | InvestmentCalculator.cpp:144-166 | the reader returns the value of the first attempt the integer decision accepts, which lies in [min, max]; every earlier attempt was rejected and retried; when no attempt is accepted it returns nothing |
| Calculator.InvestmentCalculator.constructor | InvestmentCalculator.cpp:9-13 | a new calculator holds 0, 0, 0 percent and 1 year, which are valid scenario values |
| Calculator.InvestmentCalculator.GetUserInput | InvestmentCalculator.cpp:39-44 | the four readers run one after another over the attempts, each starting where the previous stopped: the initial investment is the first attempt the amount decision accepts (bound 1e12), the monthly deposit the next one after it, the rate the next one accepted with bound 10000 and the years the next one the integer decision accepts in [1, 10000]; every attempt in between is rejected; the stored values form a valid scenario. It reports incomplete only when one reader finds every remaining attempt rejected, after the readers before it have each read their value |
| Calculator.InvestmentCalculator.NoMonthlyDepositsReport | InvestmentCalculator.cpp:62-75 | the nested loops emit exactly `Report` for the fields, with deposit 0 and the monthly rate of the annual rate |
| Calculator.InvestmentCalculator.WithMonthlyDepositsReport | InvestmentCalculator.cpp:77-91 | the nested loops emit exactly `Report` for the fields, with the monthly deposit added before each month's interest |
| Calculator.ValidScenarioReports | InvestmentCalculator.cpp:62-91 | for every valid scenario both reports have exactly `years` rows numbered 1 to `years`, with non-negative interest and balances that never decrease from the initial investment |

## Left out

- `Run`, `PrintTitle`, `DisplayInputSummary` and `WaitForEnter` are left out. They are the interactive "run another scenario?" loop and console text.
- `PrintReportHeader` and `PrintYearRow` are left out. They format columns and round to two decimals. The report methods return the rows instead of printing them.
- Prompts and the corrective messages are not modelled. A rejection carries a reason code (`Rejection`) instead of a message.
- Reading from the console is not modelled. A reader takes a finite script of attempts. End of input is an `EndOfInput` attempt, which is rejected and retried as in the code. Once input is closed the code would go on prompting and failing to read, forever; the model returns `None` when the script runs out. `GetUserInput` then reports `complete == false`.
- The internals of `std::stod` and `std::stoll` are not modelled (leading white space, signs, exponents, hexadecimal forms, range errors). What they return is part of each attempt, as `Parse` values. `stoll`'s `long long` range is not imposed on the parsed integer.
- IEEE-754 arithmetic is not modelled. Amounts, the rate and `max` are exact reals, so rounding and drift over many months are not captured. The parsed double keeps only its finite, infinite and NaN cases, which the comparisons at lines 129 and 133 need.
- 32-bit `int` is not modelled. `numberOfYears_`, the year counter and the month counter are unbounded integers. The validated bound of 10000 years keeps them far inside the 32-bit range.
- Validation.ReadNonNegativeDouble: rejects a NaN, which the code as written accepts (see Findings). `AmountVerdictAsWritten` models the code's behaviour.

## Findings

| source | as written | input that shows it | evidently intended | confidence | as-written member | corrected member |
|---|---|---|---|---|---|---|
| InvestmentCalculator.cpp:129-137 | the amount is rejected only if `value < 0.0` or `value > max`; both comparisons are false for NaN, so NaN is returned as a valid amount | the line `nan`: `std::stod` parses it as a quiet NaN and consumes all 3 characters, and nothing follows | only non-negative numbers up to `max` are accepted, so a NaN should be rejected like other invalid input, not spread through every balance | high (the NaN comparison rules and `strtod` accepting "nan" are standard C++/C behaviour); not executed | Validation.NaNAcceptedAsWritten | Validation.AmountVerdict |
