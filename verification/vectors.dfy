/** The examples of StringCalculator.Tests.cpp, derived from the general
    theorems of the Calculator module. */
module Vectors {
  import opened Calculator
  import opened Decimal
  import opened Tokens
  import Aggregate
  import Report

  /** An example whose values are all in 0..1000, written without a header. */
  lemma SmallExample(values: seq<int>, gaps: seq<string>, text: string, total: int)
    requires forall i | 0 <= i < |values| :: 0 <= values[i] <= Aggregate.MaxCounted
    requires |values| == 0 || |gaps| == |values| - 1
    requires SeparatorRuns(gaps, {',', '\n'})
    requires Weave(Renders(values), gaps) == text
    requires Aggregate.Total(values) == total
    ensures Add(text) == Ok(total)
  {
    AddSumsSmallValues(values, gaps);
  }

  /** An example whose values are all in 0..1000, written after a header. */
  lemma CustomSmallExample(delimiter: string, values: seq<int>, gaps: seq<string>, text: string, total: int)
    requires '\n' !in delimiter
    requires forall i | 0 <= i < |delimiter| :: !IsDigit(delimiter[i]) && delimiter[i] != '-'
    requires forall i | 0 <= i < |values| :: 0 <= values[i] <= Aggregate.MaxCounted
    requires |values| == 0 || |gaps| == |values| - 1
    requires SeparatorRuns(gaps, Header.Separators(delimiter))
    requires "//" + delimiter + "\n" + Weave(Renders(values), gaps) == text
    requires Aggregate.Total(values) == total
    ensures Add(text) == Ok(total)
  {
    AddCustomWoven("//", delimiter, values, gaps);
    VerdictReportsAllNegatives(values);
    Aggregate.SumOfSmallValues(values);
  }

  /** `%d` of the values the examples use. */
  lemma Renderings()
    ensures IntToString(1) == "1" && IntToString(2) == "2" && IntToString(3) == "3"
    ensures IntToString(4) == "4" && IntToString(5) == "5"
    ensures IntToString(-2) == "-2" && IntToString(-3) == "-3"
    ensures IntToString(1001) == "1001"
  {
    assert NatToString(1001) == NatToString(100) + ['1'];
    assert NatToString(100) == NatToString(10) + ['0'];
    assert NatToString(10) == ['1', '0'];
  }

  /** An example written without a header, whatever its values. */
  lemma DefaultExample(values: seq<int>, gaps: seq<string>, text: string)
    requires |values| == 0 || |gaps| == |values| - 1
    requires SeparatorRuns(gaps, {',', '\n'})
    requires Weave(Renders(values), gaps) == text
    ensures Add(text) == Verdict(values)
  {
    AddDefaultWoven(values, gaps);
  }

  /** An example written after a header, whatever its values. */
  lemma CustomExample(delimiter: string, values: seq<int>, gaps: seq<string>, text: string)
    requires '\n' !in delimiter
    requires forall i | 0 <= i < |delimiter| :: !IsDigit(delimiter[i]) && delimiter[i] != '-'
    requires |values| == 0 || |gaps| == |values| - 1
    requires SeparatorRuns(gaps, Header.Separators(delimiter))
    requires "//" + delimiter + "\n" + Weave(Renders(values), gaps) == text
    ensures Add(text) == Verdict(values)
  {
    AddCustomWoven("//", delimiter, values, gaps);
  }

  lemma EmptyInput()
    ensures Add("") == Ok(0)
  {
  }

  lemma SingleValue()
    ensures Add("1") == Ok(1)
  {
    Renderings();
    assert Renders([1]) == ["1"];
    SmallExample([1], [], "1", 1);
  }

  lemma TwoValues()
    ensures Add("1,2") == Ok(3)
  {
    Renderings();
    assert Renders([1, 2]) == ["1", "2"];
    SmallExample([1, 2], [","], "1,2", 3);
  }

  lemma FiveValues()
    ensures Add("1,2,3,4,5") == Ok(15)
  {
    FiveValuesWritten();
    SmallExample([1, 2, 3, 4, 5], [",", ",", ",", ","], "1,2,3,4,5", 15);
  }

  lemma FiveValuesWritten()
    ensures Weave(Renders([1, 2, 3, 4, 5]), [",", ",", ",", ","]) == "1,2,3,4,5"
  {
    FiveRendered();
    WeaveCons("4", ["5"], ",", []);
    WeaveCons("3", ["4", "5"], ",", [","]);
    WeaveCons("2", ["3", "4", "5"], ",", [",", ","]);
    WeaveCons("1", ["2", "3", "4", "5"], ",", [",", ",", ","]);
  }

  lemma FiveRendered()
    ensures Renders([1, 2, 3, 4, 5]) == ["1", "2", "3", "4", "5"]
  {
    Renderings();
  }

  lemma NewlineSeparated()
    ensures Add("1\n2,3") == Ok(6)
  {
    OneTwoThree("\n", ",");
    SmallExample([1, 2, 3], ["\n", ","], "1\n2,3", 6);
  }

  /** 1, 2 and 3 with the given separator runs between them. */
  lemma OneTwoThree(g: string, h: string)
    ensures Weave(Renders([1, 2, 3]), [g, h]) == "1" + g + "2" + h + "3"
  {
    Renderings();
    assert Renders([1, 2, 3]) == ["1", "2", "3"];
    WeaveCons("2", ["3"], h, []);
    WeaveCons("1", ["2", "3"], g, [h]);
  }

  lemma SingleCharacterDelimiter()
    ensures Add("//;\n1;2") == Ok(3)
  {
    Renderings();
    assert Renders([1, 2]) == ["1", "2"];
    assert ';' in Header.Separators(";");
    CustomSmallExample(";", [1, 2], [";"], "//;\n1;2", 3);
  }

  lemma BracketedDelimiter()
    ensures Add("//[***]\n1***2***3") == Ok(6)
  {
    BracketedWritten();
    assert '*' in Header.Separators("[***]");
    CustomSmallExample("[***]", [1, 2, 3], ["***", "***"], "//[***]\n1***2***3", 6);
  }

  lemma BracketedWritten()
    ensures "//" + "[***]" + "\n" + Weave(Renders([1, 2, 3]), ["***", "***"]) == "//[***]\n1***2***3"
  {
    OneTwoThree("***", "***");
  }

  lemma OneNegative()
    ensures Add("1,-2,3") == NegativesNotAllowed([-2])
  {
    OneNegativeParsed();
    OneNegativeVerdict();
  }

  lemma OneNegativeParsed()
    ensures Add("1,-2,3") == Verdict([1, -2, 3])
  {
    Renderings();
    assert Renders([1, -2, 3]) == ["1", "-2", "3"];
    WeaveCons("-2", ["3"], ",", []);
    WeaveCons("1", ["-2", "3"], ",", [","]);
    DefaultExample([1, -2, 3], [",", ","], "1,-2,3");
  }

  lemma OneNegativeVerdict()
    ensures Verdict([1, -2, 3]) == NegativesNotAllowed([-2])
  {
    assert Aggregate.Negatives([1, -2, 3]) == [-2];
  }

  lemma OneNegativeReport()
    ensures Diagnostic(NegativesNotAllowed([-2])) == "Exception: negatives not allowed: -2"
  {
    Renderings();
    assert Renders([-2]) == ["-2"];
  }

  lemma TwoNegatives()
    ensures Add("1,-2,-3") == NegativesNotAllowed([-2, -3])
  {
    TwoNegativesParsed();
    TwoNegativesVerdict();
  }

  lemma TwoNegativesParsed()
    ensures Add("1,-2,-3") == Verdict([1, -2, -3])
  {
    Renderings();
    assert Renders([1, -2, -3]) == ["1", "-2", "-3"];
    WeaveCons("-2", ["-3"], ",", []);
    WeaveCons("1", ["-2", "-3"], ",", [","]);
    DefaultExample([1, -2, -3], [",", ","], "1,-2,-3");
  }

  lemma TwoNegativesVerdict()
    ensures Verdict([1, -2, -3]) == NegativesNotAllowed([-2, -3])
  {
    assert Aggregate.Negatives([1, -2, -3]) == [-2, -3];
  }

  lemma TwoNegativesReport()
    ensures Diagnostic(NegativesNotAllowed([-2, -3])) == "Exception: negatives not allowed: -2, -3"
  {
    TwoNegativesJoined();
  }

  lemma TwoNegativesJoined()
    ensures JoinWith(Renders([-2, -3]), Report.ValueSeparator) == "-2, -3"
  {
    Renderings();
    assert Renders([-2, -3]) == ["-2", "-3"];
  }

  lemma LargeValueIgnored()
    ensures Add("2,1001") == Ok(2)
  {
    LargeValueParsed();
    LargeValueVerdict();
  }

  lemma LargeValueParsed()
    ensures Add("2,1001") == Verdict([2, 1001])
  {
    Renderings();
    assert Renders([2, 1001]) == ["2", "1001"];
    DefaultExample([2, 1001], [","], "2,1001");
  }

  lemma LargeValueVerdict()
    ensures Verdict([2, 1001]) == Ok(2)
  {
    SkipsThousandOne([2], []);
    assert [2] + [1001] + [] == [2, 1001];
  }

  lemma MixedSeparators()
    ensures Add("//;\n1;1001\n2,3") == Ok(6)
  {
    MixedSeparatorsParsed();
    MixedSeparatorsVerdict();
  }

  lemma MixedSeparatorsParsed()
    ensures Add("//;\n1;1001\n2,3") == Verdict([1, 1001, 2, 3])
  {
    MixedSeparatorsWritten();
    assert ';' in Header.Separators(";");
    CustomExample(";", [1, 1001, 2, 3], [";", "\n", ","], "//;\n1;1001\n2,3");
  }

  lemma MixedSeparatorsWritten()
    ensures "//" + ";" + "\n" + Weave(Renders([1, 1001, 2, 3]), [";", "\n", ","]) == "//;\n1;1001\n2,3"
  {
    MixedRendered();
    WeaveCons("2", ["3"], ",", []);
    WeaveCons("1001", ["2", "3"], "\n", [","]);
    WeaveCons("1", ["1001", "2", "3"], ";", ["\n", ","]);
  }

  lemma MixedRendered()
    ensures Renders([1, 1001, 2, 3]) == ["1", "1001", "2", "3"]
  {
    Renderings();
  }

  lemma MixedSeparatorsVerdict()
    ensures Verdict([1, 1001, 2, 3]) == Ok(6)
  {
    SkipsThousandOne([1], [2, 3]);
    assert [1] + [1001] + [2, 3] == [1, 1001, 2, 3];
  }

  /** The input on which the C text reads "2,3" as 2 (see AsWritten). */
  lemma CommaAfterCustomDelimiter()
    ensures Add("//;\n1;2,3") == Ok(6)
  {
    OneTwoThree(";", ",");
    assert ';' in Header.Separators(";");
    CustomSmallExample(";", [1, 2, 3], [";", ","], "//;\n1;2,3", 6);
  }

  /** 1001 drops out of the sum. */
  lemma SkipsThousandOne(before: seq<int>, after: seq<int>)
    requires forall i | 0 <= i < |before + after| :: 0 <= (before + after)[i] <= Aggregate.MaxCounted
    ensures Verdict(before + [1001] + after) == Ok(Aggregate.Total(before + after))
  {
    var values := before + [1001] + after;
    Aggregate.NegativesAppend(before + [1001], after);
    Aggregate.NegativesAppend(before, [1001]);
    Aggregate.NegativesAppend(before, after);
    VerdictReportsAllNegatives(values);
    VerdictReportsAllNegatives(before + after);
    Aggregate.SumSkipsLarge(before, 1001, after);
    Aggregate.SumOfSmallValues(before + after);
  }

  lemma TrailingSeparator()
    ensures Add("1,\n") == InvalidInput
  {
    AddRejectsTrailingSeparator("1,\n");
  }

  lemma ErrorCodes()
    ensures Diagnostic(InvalidInput) == "Exception: Invalid input"
    ensures StatusCode(InvalidInput) == -1
    ensures StatusCode(NegativesNotAllowed([-2])) == -1
  {
  }
}
