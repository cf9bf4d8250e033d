/** The String Calculator `add` (StringCalculator.h): resolve the delimiter,
    split the payload into tokens, convert each with `strtol`, then either
    report the negatives or sum the values that are at most 1000.

    Where the C text and its tests disagree this model follows the tests; each
    place is marked "Deviation" below with the source line it departs from. */
module Calculator {
  import opened Decimal
  import opened Tokens
  import opened Header
  import Aggregate
  import Report

  datatype Result =
    | Ok(sum: int)
    | InvalidInput
    | NegativesNotAllowed(values: seq<int>)

  /** What the validation step makes of the parsed numbers: all negatives
      together if there are any, otherwise the sum of the values up to 1000. */
  function Verdict(numbers: seq<int>): (r: Result)
    ensures r.Ok? || r.NegativesNotAllowed?
    ensures r.Ok? ==> r.sum >= 0
    ensures r.NegativesNotAllowed? ==> |r.values| > 0 && forall i | 0 <= i < |r.values| :: r.values[i] < 0
  {
    var negatives := Aggregate.Negatives(numbers);
    // Deviation: StringCalculator.h:95-97 prints the message and exits the
    // process; here the negatives are returned.
    if |negatives| > 0 then NegativesNotAllowed(negatives)
    else
      Aggregate.SumBounds(numbers);
      Ok(Aggregate.Sum(numbers))
  }

  function Add(input: string): (r: Result)
    ensures input == [] ==> r == Ok(0)
    ensures r.Ok? ==> r.sum >= 0
  {
    match Resolve(input)
    // Deviation: C reads past the terminator when the header has no '\n'
    // (StringCalculator.h:65-72); here that input is invalid.
    case Unterminated(_) => InvalidInput
    case Resolved(delimiter, payload) =>
      // Deviation: StringCalculator.h:66 drops the default ","; here ',' and
      // '\n' stay separators next to the custom delimiter's characters.
      var seps := Separators(delimiter);
      // Deviation: the C code never rejects a trailing separator; its tests
      // expect "1,\n" to be invalid (StringCalculator.Tests.cpp:66-70).
      if |payload| > 0 && payload[|payload| - 1] in seps then InvalidInput
      // Deviation: the nested `strtok` calls of StringCalculator.h:50-59 share
      // one cursor, so only the first line is read; here every line is (see
      // Tokens.SplitByLines for why one split over all separators is the same).
      else Verdict(ParseAll(Split(payload, seps)))
  }

  /** The integer the C `add` hands back: the sum, or -1 for an error.
      Deviation: StringCalculator.h:97 exits the process on negatives, where
      the tests expect -1 for negatives (StringCalculator.Tests.cpp:42) and
      for invalid input (StringCalculator.Tests.cpp:68). */
  function StatusCode(r: Result): int {
    if r.Ok? then r.sum else -1
  }

  /** The line written to the error stream for a failed call. */
  function Diagnostic(r: Result): string
    requires !r.Ok?
  {
    if r.InvalidInput? then Report.InvalidInputMessage else Report.NegativesMessage(r.values)
  }

  /** Because a successful sum is never negative, -1 marks exactly the failures. */
  lemma StatusCodeSignalsError(input: string)
    ensures StatusCode(Add(input)) == -1 <==> !Add(input).Ok?
    ensures Add(input).Ok? ==> StatusCode(Add(input)) == Add(input).sum
  {
  }

  /** The verdict is a sum exactly when there is no negative, and a negatives
      report carries every negative in order, one per negative value. */
  lemma VerdictReportsAllNegatives(numbers: seq<int>)
    ensures Verdict(numbers).Ok? <==> forall i | 0 <= i < |numbers| :: numbers[i] >= 0
    ensures Verdict(numbers).Ok? ==> Verdict(numbers).sum == Aggregate.Sum(numbers)
    ensures Verdict(numbers).NegativesNotAllowed? ==>
      Verdict(numbers).values == Aggregate.Negatives(numbers)
      && |Verdict(numbers).values| == Aggregate.NegativeCount(numbers)
  {
    Aggregate.NegativesCount(numbers);
  }

  predicate SeparatorRuns(gaps: seq<string>, seps: set<char>) {
    forall i | 0 <= i < |gaps| :: |gaps[i]| > 0 && AllIn(gaps[i], seps)
  }

  lemma {:induction false} WeaveEnds(tokens: seq<string>, gaps: seq<string>)
    requires |tokens| > 0 && |gaps| == |tokens| - 1
    requires forall i | 0 <= i < |tokens| :: |tokens[i]| > 0
    ensures var s := Weave(tokens, gaps);
      |s| > 0 && s[0] == tokens[0][0] && s[|s| - 1] == tokens[|tokens| - 1][|tokens[|tokens| - 1]| - 1]
  {
    if |tokens| > 1 {
      WeaveEnds(tokens[1..], gaps[1..]);
    }
  }

  /** The rendered values are tokens for any separator set that holds no
      digit and no '-'. */
  lemma RendersAreTokens(values: seq<int>, seps: set<char>)
    requires forall c | c in seps :: !IsDigit(c) && c != '-'
    ensures forall i | 0 <= i < |Renders(values)| ::
      |Renders(values)[i]| > 0 && NoneIn(Renders(values)[i], seps)
  {
  }

  /** Reading back a payload of rendered values with separator runs between
      them: it does not end in a separator and yields the values again. */
  lemma PayloadRoundTrip(values: seq<int>, gaps: seq<string>, seps: set<char>)
    requires forall c | c in seps :: !IsDigit(c) && c != '-'
    requires |values| == 0 || |gaps| == |values| - 1
    requires SeparatorRuns(gaps, seps)
    ensures var payload := Weave(Renders(values), gaps);
      (|payload| > 0 ==> payload[|payload| - 1] !in seps)
      && ParseAll(Split(payload, seps)) == values
  {
    var ts := Renders(values);
    RendersAreTokens(values, seps);
    if |ts| > 0 {
      WeaveEnds(ts, gaps);
    }
    SplitWeave(ts, gaps, seps);
    ParseAllRenders(values);
  }

  /** Values written with the default separators: with any non-empty runs of
      ',' and '\n' between neighbours the result is the verdict on exactly
      those values. */
  lemma AddDefaultWoven(values: seq<int>, gaps: seq<string>)
    requires |values| == 0 || |gaps| == |values| - 1
    requires SeparatorRuns(gaps, {',', '\n'})
    ensures Add(Weave(Renders(values), gaps)) == Verdict(values)
  {
    var input := Weave(Renders(values), gaps);
    NoHeader(values, gaps);
    assert Resolve(input) == Resolved(DefaultDelimiter, input);
    DefaultSeparators();
    PayloadRoundTrip(values, gaps, {',', '\n'});
    AddResolved(input, DefaultDelimiter, input);
  }

  /** Rendered values start with a digit or '-', never with the header's '/'. */
  lemma NoHeader(values: seq<int>, gaps: seq<string>)
    requires |values| == 0 || |gaps| == |values| - 1
    ensures var input := Weave(Renders(values), gaps);
      |input| == 0 || input[0] != '/'
  {
    var ts := Renders(values);
    if |ts| > 0 {
      RendersAreTokens(values, {});
      WeaveEnds(ts, gaps);
      assert ts[0] == IntToString(values[0]);
    }
  }

  lemma DefaultSeparators()
    ensures Separators(DefaultDelimiter) == {',', '\n'}
  {
  }

  /** Once the header is resolved, `add` is the verdict on the payload's
      converted tokens, unless the payload ends in a separator. */
  lemma AddResolved(input: string, delimiter: string, payload: string)
    requires Resolve(input) == Resolved(delimiter, payload)
    requires |payload| == 0 || payload[|payload| - 1] !in Separators(delimiter)
    ensures Add(input) == Verdict(ParseAll(Split(payload, Separators(delimiter))))
  {
  }

  /** Values written after a custom delimiter header: runs of the delimiter's
      characters, ',' and '\n' may stand between neighbours. */
  lemma AddCustomWoven(marker: string, delimiter: string, values: seq<int>, gaps: seq<string>)
    requires |marker| == 2 && marker[0] == '/'
    requires '\n' !in delimiter
    requires forall i | 0 <= i < |delimiter| :: !IsDigit(delimiter[i]) && delimiter[i] != '-'
    requires |values| == 0 || |gaps| == |values| - 1
    requires SeparatorRuns(gaps, Separators(delimiter))
    ensures Add(marker + delimiter + "\n" + Weave(Renders(values), gaps)) == Verdict(values)
  {
    var payload := Weave(Renders(values), gaps);
    ResolveHeader(marker, delimiter, payload);
    PayloadRoundTrip(values, gaps, Separators(delimiter));
    AddResolved(marker + delimiter + "\n" + payload, delimiter, payload);
  }

  /** Values in 0..1000 separated by ',' and '\n' add up to their arithmetic sum. */
  lemma AddSumsSmallValues(values: seq<int>, gaps: seq<string>)
    requires forall i | 0 <= i < |values| :: 0 <= values[i] <= Aggregate.MaxCounted
    requires |values| == 0 || |gaps| == |values| - 1
    requires SeparatorRuns(gaps, {',', '\n'})
    ensures Add(Weave(Renders(values), gaps)) == Ok(Aggregate.Total(values))
  {
    AddDefaultWoven(values, gaps);
    Aggregate.SumOfSmallValues(values);
    VerdictReportsAllNegatives(values);
  }

  /** One negative anywhere turns the result into the negatives error, which
      lists every negative in input order and has one entry per negative. */
  lemma AddReportsEveryNegative(values: seq<int>, gaps: seq<string>)
    requires exists i | 0 <= i < |values| :: values[i] < 0
    requires |gaps| == |values| - 1
    requires SeparatorRuns(gaps, {',', '\n'})
    ensures Add(Weave(Renders(values), gaps)).NegativesNotAllowed?
    ensures Add(Weave(Renders(values), gaps)).values == Aggregate.Negatives(values)
    ensures |Add(Weave(Renders(values), gaps)).values| == Aggregate.NegativeCount(values)
  {
    AddDefaultWoven(values, gaps);
    VerdictReportsAllNegatives(values);
  }

  /** A payload that ends in a separator is invalid: without a header ',' and
      '\n' are the separators ... */
  lemma AddRejectsTrailingSeparator(input: string)
    requires |input| > 0 && input[0] != '/' && input[|input| - 1] in {',', '\n'}
    ensures Add(input) == InvalidInput
  {
  }

  /** ... and after a header the delimiter's characters are separators too. */
  lemma AddRejectsTrailingSeparatorAfterHeader(marker: string, delimiter: string, payload: string)
    requires |marker| == 2 && marker[0] == '/'
    requires '\n' !in delimiter
    requires |payload| > 0 && payload[|payload| - 1] in Separators(delimiter)
    ensures Add(marker + delimiter + "\n" + payload) == InvalidInput
  {
    ResolveHeader(marker, delimiter, payload);
  }

  /** A header with no line break after it makes the input invalid. */
  lemma AddRejectsUnterminatedHeader(input: string)
    requires |input| > 0 && input[0] == '/'
    requires |input| < 2 || '\n' !in input[2..]
    ensures Add(input) == InvalidInput
  {
  }
}
