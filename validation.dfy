/** The input side of the calculator: the decision that accepts or rejects a
    line typed for one of the four scenario values, and the retry loops that
    read lines until one is accepted.

    The library parsers `std::stod` and `std::stoll` are not modelled: a
    line carries, as data, what each of them returns for it (the number and
    the index just past what it consumed, or an exception). */
module Validation {

  datatype Option<T> = None | Some(value: T)

  /** A double as `std::stod` can return it: a finite value, an infinity
      ("inf", "-inf") or not-a-number ("nan"). */
  datatype Double = Finite(value: real) | Infinity(negative: bool) | NaN

  /** What a library parser returns for a line: the number and the index
      just past the characters it consumed, or an exception. */
  datatype Parse<T> = Parsed(value: T, consumed: nat) | ParseError

  /** One attempt to read a line: the input is exhausted, or a line of text
      with what `std::stod` and `std::stoll` return for it. */
  datatype Attempt = EndOfInput | Line(text: string, asDouble: Parse<Double>, asInteger: Parse<int>)

  /** Why a reader rejects an attempt and prompts again. */
  datatype Rejection =
    | NoLine        // no line could be read
    | InvalidInput  // the parser threw, or non-blank characters follow the number
    | Negative      // an amount below zero
    | TooLarge      // an amount above its upper bound
    | OutOfRange    // a whole number outside its bounds

  /** The outcome of one attempt. */
  datatype Verdict<T> = Accepted(value: T) | Rejected(reason: Rejection)

  /** Default upper bound of an amount (initial investment, monthly deposit). */
  const AmountMax: real := 1000000000000.0
  /** Upper bound of the annual interest rate, in percent. */
  const RateMax: real := 10000.0
  /** Default bounds of a whole number (the number of years). */
  const YearsMin: int := 1
  const YearsMax: int := 10000

  /** `std::isspace` in the "C" locale: space, tab, line feed, vertical
      tab, form feed and carriage return. */
  predicate IsSpace(c: char)
  {
    c == ' ' || '\t' <= c <= '\r'
  }

  /** Position `from` is at or before the end of `text` and only
      white space follows it. */
  predicate RestIsBlank(text: string, from: int)
  {
    0 <= from <= |text| && forall k :: from <= k < |text| ==> IsSpace(text[k])
  }

  /** Advances past white space from `from`; the line is acceptable when
      this reaches the end of the line exactly. */
  method SkipSpaces(text: string, from: nat) returns (end: nat)
    ensures from <= end
    ensures end == |text| <==> RestIsBlank(text, from)
    ensures from <= |text| ==> end <= |text| && (forall k :: from <= k < end ==> IsSpace(text[k]))
                               && (end < |text| ==> !IsSpace(text[end]))
  {
    end := from;
    while end < |text| && IsSpace(text[end])
      invariant from <= end
      invariant end == from || end <= |text|
      invariant forall k :: from <= k < end ==> IsSpace(text[k])
      decreases |text| - end
    {
      end := end + 1;
    }
  }

  /** IEEE-754 `x < bound` for a double `x`: false for NaN. */
  predicate LessThan(x: Double, bound: real)
  {
    match x
    case Finite(v) => v < bound
    case Infinity(negative) => negative
    case NaN => false
  }

  /** IEEE-754 `x > bound` for a double `x`: false for NaN. */
  predicate GreaterThan(x: Double, bound: real)
  {
    match x
    case Finite(v) => v > bound
    case Infinity(negative) => !negative
    case NaN => false
  }

  /** The amount reader's decision exactly as written: trailing characters,
      then `value < 0.0`, then `value > max`. Both comparisons are false
      for NaN, so NaN gets through. */
  function AmountVerdictAsWritten(attempt: Attempt, max: real): (v: Verdict<Double>)
    ensures v.Accepted? <==>
              attempt.Line? && attempt.asDouble.Parsed? &&
              RestIsBlank(attempt.text, attempt.asDouble.consumed) &&
              !LessThan(attempt.asDouble.value, 0.0) && !GreaterThan(attempt.asDouble.value, max)
    ensures v.Accepted? ==> v.value == attempt.asDouble.value
  {
    match attempt
    case EndOfInput => Rejected(NoLine)
    case Line(text, parsed, _) =>
      match parsed
      case ParseError => Rejected(InvalidInput)
      case Parsed(x, consumed) =>
        if !RestIsBlank(text, consumed) then Rejected(InvalidInput)
        else if LessThan(x, 0.0) then Rejected(Negative)
        else if GreaterThan(x, max) then Rejected(TooLarge)
        else Accepted(x)
  }

  /** The amount reader's decision with NaN rejected as invalid input: a
      line is accepted exactly when it holds a finite number between 0 and
      `max` followed by nothing but white space. */
  function AmountVerdict(attempt: Attempt, max: real): (v: Verdict<real>)
    ensures v.Accepted? <==>
              attempt.Line? && attempt.asDouble.Parsed? &&
              RestIsBlank(attempt.text, attempt.asDouble.consumed) &&
              attempt.asDouble.value.Finite? && 0.0 <= attempt.asDouble.value.value <= max
    ensures v.Accepted? ==> attempt.asDouble.value == Finite(v.value)
    ensures v == Rejected(Negative) <==>
              attempt.Line? && attempt.asDouble.Parsed? &&
              RestIsBlank(attempt.text, attempt.asDouble.consumed) && LessThan(attempt.asDouble.value, 0.0)
    ensures v == Rejected(TooLarge) <==>
              attempt.Line? && attempt.asDouble.Parsed? &&
              RestIsBlank(attempt.text, attempt.asDouble.consumed) &&
              !LessThan(attempt.asDouble.value, 0.0) && GreaterThan(attempt.asDouble.value, max)
    ensures v.Rejected? ==> v.reason != OutOfRange
  {
    match attempt
    case EndOfInput => Rejected(NoLine)
    case Line(text, parsed, _) =>
      match parsed
      case ParseError => Rejected(InvalidInput)
      case Parsed(x, consumed) =>
        if !RestIsBlank(text, consumed) || x.NaN? then Rejected(InvalidInput)
        else if LessThan(x, 0.0) then Rejected(Negative)
        else if GreaterThan(x, max) then Rejected(TooLarge)
        else Accepted(x.value)
  }

  /** The integer reader's decision: a line is accepted exactly when it
      holds a whole number between `min` and `max` followed by nothing but
      white space. */
  function IntegerVerdict(attempt: Attempt, min: int, max: int): (v: Verdict<int>)
    ensures v.Accepted? <==>
              attempt.Line? && attempt.asInteger.Parsed? &&
              RestIsBlank(attempt.text, attempt.asInteger.consumed) &&
              min <= attempt.asInteger.value <= max
    ensures v.Accepted? ==> v.value == attempt.asInteger.value
    ensures v == Rejected(OutOfRange) <==>
              attempt.Line? && attempt.asInteger.Parsed? &&
              RestIsBlank(attempt.text, attempt.asInteger.consumed) &&
              (attempt.asInteger.value < min || attempt.asInteger.value > max)
    ensures v.Rejected? ==> v.reason in {NoLine, InvalidInput, OutOfRange}
  {
    match attempt
    case EndOfInput => Rejected(NoLine)
    case Line(text, _, parsed) =>
      match parsed
      case ParseError => Rejected(InvalidInput)
      case Parsed(n, consumed) =>
        if !RestIsBlank(text, consumed) then Rejected(InvalidInput)
        else if n < min || n > max then Rejected(OutOfRange)
        else Accepted(n)
  }

  /** The correction changes exactly one case: a NaN followed by nothing but
      white space, which the code accepts and the correction rejects. On
      every other attempt, a NaN with trailing characters included, the
      corrected decision is the decision as written. */
  lemma CorrectionOnlyRejectsNaN(attempt: Attempt, max: real)
    ensures (attempt.Line? && attempt.asDouble.Parsed? && attempt.asDouble.value.NaN? &&
             RestIsBlank(attempt.text, attempt.asDouble.consumed))
            ==> AmountVerdictAsWritten(attempt, max) == Accepted(NaN) &&
                AmountVerdict(attempt, max) == Rejected(InvalidInput)
    ensures !(attempt.Line? && attempt.asDouble.Parsed? && attempt.asDouble.value.NaN? &&
              RestIsBlank(attempt.text, attempt.asDouble.consumed))
            ==> AmountVerdictAsWritten(attempt, max) ==
                match AmountVerdict(attempt, max)
                case Accepted(x) => Accepted(Finite(x))
                case Rejected(why) => Rejected(why)
  {
  }

  /** The input that shows the defect: "nan" is a number to `std::stod`,
      and the reader as written accepts it as an amount. */
  lemma NaNAcceptedAsWritten()
    ensures AmountVerdictAsWritten(Line("nan", Parsed(NaN, 3), ParseError), AmountMax) == Accepted(NaN)
    ensures AmountVerdict(Line("nan", Parsed(NaN, 3), ParseError), AmountMax) == Rejected(InvalidInput)
  {
  }

  /** The attempts `script[from..to]` are one run of the amount reader that
      ends with `value`: the last of them is accepted with that value and
      every one before it is rejected. */
  predicate AmountReadBetween(script: seq<Attempt>, from: int, to: int, max: real, value: real)
  {
    0 <= from < to <= |script| &&
    AmountVerdict(script[to - 1], max) == Accepted(value) &&
    forall j :: from <= j < to - 1 ==> AmountVerdict(script[j], max).Rejected?
  }

  /** The attempts `script[from..to]` are one run of the integer reader that
      ends with `value`. */
  predicate IntegerReadBetween(script: seq<Attempt>, from: int, to: int, min: int, max: int, value: int)
  {
    0 <= from < to <= |script| &&
    IntegerVerdict(script[to - 1], min, max) == Accepted(value) &&
    forall j :: from <= j < to - 1 ==> IntegerVerdict(script[j], min, max).Rejected?
  }

  /** Every attempt from position `from` to the end of `script` is rejected
      by the amount reader: a reader started there runs out of input. */
  predicate AmountRejectedFrom(script: seq<Attempt>, from: int, max: real)
  {
    0 <= from <= |script| &&
    forall j :: from <= j < |script| ==> AmountVerdict(script[j], max).Rejected?
  }

  /** Every attempt from position `from` to the end of `script` is rejected
      by the integer reader. */
  predicate IntegerRejectedFrom(script: seq<Attempt>, from: int, min: int, max: int)
  {
    0 <= from <= |script| &&
    forall j :: from <= j < |script| ==> IntegerVerdict(script[j], min, max).Rejected?
  }

  /** Reads attempts from `script` until one is accepted as an amount
      between 0 and `max`, and returns its value and how many attempts
      were used. Every attempt before it was rejected. When the script runs
      out first the result is `None` (the program itself would go on
      prompting). */
  method ReadNonNegativeDouble(script: seq<Attempt>, max: real) returns (result: Option<real>, used: nat)
    ensures used <= |script|
    ensures result.Some? ==> 0 < used && AmountVerdict(script[used - 1], max) == Accepted(result.value)
    ensures result.Some? ==> 0.0 <= result.value <= max
    ensures result.None? ==> used == |script|
    ensures forall j :: 0 <= j < used && (result.None? || j < used - 1) ==>
              AmountVerdict(script[j], max).Rejected?
  {
    used := 0;
    while used < |script|
      invariant used <= |script|
      invariant forall j :: 0 <= j < used ==> AmountVerdict(script[j], max).Rejected?
    {
      var attempt := script[used];
      used := used + 1;
      if attempt.EndOfInput? || attempt.asDouble.ParseError? {
        continue;
      }
      var x := attempt.asDouble.value;
      var end := SkipSpaces(attempt.text, attempt.asDouble.consumed);
      if end != |attempt.text| || x.NaN? {
        continue;
      }
      if LessThan(x, 0.0) {
        continue;
      }
      if GreaterThan(x, max) {
        continue;
      }
      return Some(x.value), used;
    }
    result := None;
  }

  /** Reads attempts from `script` until one is accepted as a whole number
      between `min` and `max`, and returns its value and how many attempts
      were used. Every attempt before it was rejected. When the script runs
      out first the result is `None`. */
  method ReadPositiveInt(script: seq<Attempt>, min: int, max: int) returns (result: Option<int>, used: nat)
    ensures used <= |script|
    ensures result.Some? ==> 0 < used && IntegerVerdict(script[used - 1], min, max) == Accepted(result.value)
    ensures result.Some? ==> min <= result.value <= max
    ensures result.None? ==> used == |script|
    ensures forall j :: 0 <= j < used && (result.None? || j < used - 1) ==>
              IntegerVerdict(script[j], min, max).Rejected?
  {
    used := 0;
    while used < |script|
      invariant used <= |script|
      invariant forall j :: 0 <= j < used ==> IntegerVerdict(script[j], min, max).Rejected?
    {
      var attempt := script[used];
      used := used + 1;
      if attempt.EndOfInput? || attempt.asInteger.ParseError? {
        continue;
      }
      var n := attempt.asInteger.value;
      var end := SkipSpaces(attempt.text, attempt.asInteger.consumed);
      if end != |attempt.text| {
        continue;
      }
      if n < min || n > max {
        continue;
      }
      return Some(n), used;
    }
    result := None;
  }
}
