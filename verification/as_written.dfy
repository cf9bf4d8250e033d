/** The parsing of StringCalculator.h:41-73 as the C text is written, kept only
    to exhibit where it departs from its tests: the nested `strtok` calls share
    one saved pointer, and a custom delimiter replaces the default ",".
    The rest of the model does not use this module. */
module AsWritten {
  import opened Decimal
  import Aggregate
  import Header

  /** What the C `add` does: exit the process, or return a value. */
  datatype Outcome = Exits | Returns(value: int)

  /** `MAX_NUMBERS`: the capacity of the numbers array. */
  const MaxNumbers: nat := 1000

  /** A C character buffer (NUL bytes included) and the pointer `strtok`
      saves between calls, both as indices into the buffer. */
  datatype Tokenizer = Tokenizer(buffer: string, saved: nat)

  /** A `char *` result of `strtok`: a null pointer or an index into the buffer. */
  datatype Pointer = Null | At(index: nat)

  datatype Call = Call(token: Pointer, state: Tokenizer)

  predicate Valid(st: Tokenizer) {
    st.saved <= |st.buffer|
  }

  /** Index of the NUL that ends the C string starting at `i` (or the buffer's end). */
  function StringEnd(buf: string, i: nat): (e: nat)
    requires i <= |buf|
    ensures i <= e <= |buf|
    ensures forall j | i <= j < e :: buf[j] != '\0'
    ensures e < |buf| ==> buf[e] == '\0'
    decreases |buf| - i
  {
    if i == |buf| || buf[i] == '\0' then i else StringEnd(buf, i + 1)
  }

  /** First index in `i..end` that is not a delimiter, or `end`. */
  function SkipDelimiters(buf: string, i: nat, end: nat, delims: set<char>): (j: nat)
    requires i <= end <= |buf|
    ensures i <= j <= end
    ensures forall k | i <= k < j :: buf[k] in delims
    ensures j < end ==> buf[j] !in delims
    decreases end - i
  {
    if i == end || buf[i] !in delims then i else SkipDelimiters(buf, i + 1, end, delims)
  }

  /** First index in `i..end` that is a delimiter, or `end`. Unlike
      `Tokens.RunLength` it works on positions inside the shared buffer, whose
      contents `strtok` overwrites. */
  function FindDelimiter(buf: string, i: nat, end: nat, delims: set<char>): (j: nat)
    requires i <= end <= |buf|
    ensures i <= j <= end
    ensures forall k | i <= k < j :: buf[k] !in delims
    ensures j < end ==> buf[j] in delims
    decreases end - i
  {
    if i == end || buf[i] in delims then i else FindDelimiter(buf, i + 1, end, delims)
  }

  /** One call of `strtok(s, delims)` (section 7.24.5.8 of ISO C11): start at
      `s`, or at the saved pointer when `s` is null; skip delimiters; a token
      ends at the next delimiter, which is overwritten by NUL and the pointer
      after it saved, or at the end of the string, after which every search
      returns null. */
  function Strtok(st: Tokenizer, s: Pointer, delims: set<char>): (c: Call)
    requires Valid(st)
    requires s.At? ==> s.index <= |st.buffer|
    ensures Valid(c.state) && |c.state.buffer| == |st.buffer|
    ensures c.token.At? ==> c.token.index < |c.state.buffer|
  {
    var buf := st.buffer;
    var i := if s.At? then s.index else st.saved;
    var end := StringEnd(buf, i);
    var b := SkipDelimiters(buf, i, end, delims);
    if b == end then Call(Null, Tokenizer(buf, end))
    else
      var e := FindDelimiter(buf, b, end, delims);
      if e == end then Call(At(b), Tokenizer(buf, end))
      else Call(At(b), Tokenizer(buf[e := '\0'], e + 1))
  }

  /** The inner loop of StringCalculator.h:53-58: convert the current number
      token, then ask `strtok(NULL, delimiter)` for the next one. */
  function NumberLoop(st: Tokenizer, numToken: Pointer, delims: set<char>, numbers: seq<int>, fuel: nat)
    : (r: (seq<int>, Tokenizer))
    requires Valid(st)
    requires numToken.At? ==> numToken.index < |st.buffer|
    ensures Valid(r.1) && |r.1.buffer| == |st.buffer|
    decreases fuel
  {
    if fuel == 0 || numToken.Null? then (numbers, st)
    else
      var text := st.buffer[numToken.index..StringEnd(st.buffer, numToken.index)];
      var numbers' := if |numbers| < MaxNumbers then numbers + [Strtol(text)] else numbers;
      var next := Strtok(st, Null, delims);
      NumberLoop(next.state, next.token, delims, numbers', fuel - 1)
  }

  /** The outer loop of StringCalculator.h:51-60: split the current line with
      `strtok(token, delimiter)`, run the inner loop, then ask
      `strtok(NULL, "\n")` for the next line, from whatever pointer the inner
      loop left saved. */
  function LineLoop(st: Tokenizer, token: Pointer, delims: set<char>, numbers: seq<int>, fuel: nat): seq<int>
    requires Valid(st)
    requires token.At? ==> token.index < |st.buffer|
    decreases fuel
  {
    if fuel == 0 || token.Null? then numbers
    else
      var first := Strtok(st, token, delims);
      var (numbers', st') := NumberLoop(first.state, first.token, delims, numbers, fuel);
      var next := Strtok(st', Null, {'\n'});
      LineLoop(next.state, next.token, delims, numbers', fuel - 1)
  }

  /** A C string: no NUL inside; and a header, when the first character is
      '/', that has a '\n' after its first two characters (otherwise the C
      code steps past the terminator). The buffer is taken to be a writable
      copy of the input, since `strtok` writes NUL bytes into it. */
  predicate Defined(input: string) {
    && (forall i | 0 <= i < |input| :: input[i] != '\0')
    && (|input| > 0 && input[0] == '/' ==> |input| >= 2 && '\n' in input[2..])
  }

  /** `parseInput` as written: the header's characters replace the default
      delimiter ",", and the lines are walked with nested `strtok` calls. */
  function ParseInput(input: string): seq<int>
    requires Defined(input)
  {
    var buf := input + ['\0'];
    var (delimiter, start) :=
      if |input| > 0 && input[0] == '/' then
        var k := Header.LineEnd(input[2..]);
        (input[2..][..k], 2 + k + 1)
      else (",", 0);
    var first := Strtok(Tokenizer(buf, 0), At(start), {'\n'});
    LineLoop(first.state, first.token, set c | c in delimiter, [], |buf|)
  }

  /** `add` as written: the process exits when there is a negative (no value
      is returned), otherwise the values up to 1000 are summed. */
  function Add(input: string): Outcome
    requires Defined(input)
  {
    var numbers := ParseInput(input);
    if |Aggregate.Negatives(numbers)| > 0 then Exits else Returns(Aggregate.Sum(numbers))
  }

  lemma StringEndAt(buf: string, i: nat, e: nat)
    requires i <= e < |buf| && buf[e] == '\0'
    requires forall j | i <= j < e :: buf[j] != '\0'
    ensures StringEnd(buf, i) == e
  {
  }

  lemma ReadsDigit(d: nat, rest: string)
    requires d < 10
    requires rest == [] || !IsDigit(rest[0])
    ensures Strtol([DigitChar(d)] + rest) == d
  {
    StrtolRoundTrip(d, rest);
  }

  /** The second line of "1\n2,3" is never read: the inner `strtok(token, ",")`
      takes over the saved pointer and leaves it at the NUL that replaced the
      first '\n', so the next `strtok(NULL, "\n")` finds nothing. The tests
      expect 6 (StringCalculator.Tests.cpp:26); this code returns 1. */
  lemma OnlyFirstLineIsRead()
    ensures ParseInput("1\n2,3") == [1]
    ensures Add("1\n2,3") == Returns(1)
  {
    FirstLineParse();
    Aggregate.SumOfSmallValues([1]);
  }

  lemma FirstLineParse()
    ensures ParseInput("1\n2,3") == [1]
  {
    var buf := "1\n2,3" + ['\0'];
    assert buf == "1\n2,3\0";
    assert (set c | c in ",") == {','};
    FirstLineSplit(buf);
    FirstLineLoop(buf[1 := '\0']);
  }

  /** `strtok(input, "\n")` cuts the first line off at index 1. */
  lemma FirstLineSplit(buf: string)
    requires buf == "1\n2,3\0"
    ensures Strtok(Tokenizer(buf, 0), At(0), {'\n'}) == Call(At(0), Tokenizer(buf[1 := '\0'], 2))
  {
    StringEndAt(buf, 0, 5);
    assert FindDelimiter(buf, 0, 5, {'\n'}) == 1;
  }

  lemma FirstLineLoop(buf1: string)
    requires buf1 == "1" + ['\0'] + "2,3\0"
    ensures LineLoop(Tokenizer(buf1, 2), At(0), {','}, [], 6) == [1]
  {
    StringEndAt(buf1, 0, 1);
    StringEndAt(buf1, 1, 1);
    assert Strtok(Tokenizer(buf1, 2), At(0), {','}) == Call(At(0), Tokenizer(buf1, 1));
    FirstLineNumbers(buf1);
    assert Strtok(Tokenizer(buf1, 1), Null, {'\n'}) == Call(Null, Tokenizer(buf1, 1));
  }

  lemma FirstLineNumbers(buf1: string)
    requires buf1 == "1" + ['\0'] + "2,3\0"
    ensures NumberLoop(Tokenizer(buf1, 1), At(0), {','}, [], 6) == ([1], Tokenizer(buf1, 1))
  {
    StringEndAt(buf1, 0, 1);
    StringEndAt(buf1, 1, 1);
    assert Strtok(Tokenizer(buf1, 1), Null, {','}) == Call(Null, Tokenizer(buf1, 1));
    assert buf1[0..1] == [DigitChar(1)] + [];
    ReadsDigit(1, []);
    assert [] + [Strtol(buf1[0..StringEnd(buf1, 0)])] == [1];
    assert NumberLoop(Tokenizer(buf1, 1), Null, {','}, [1], 5) == ([1], Tokenizer(buf1, 1));
  }

  /** After the header "//;" the ',' in "1;2,3" is no separator: `strtol`
      reads "2,3" as 2. The tests expect ',' to keep separating after a custom
      delimiter (StringCalculator.Tests.cpp:62); this code returns 3, not 6. */
  lemma CustomDelimiterDropsComma()
    ensures ParseInput("//;\n1;2,3") == [1, 2]
    ensures Add("//;\n1;2,3") == Returns(3)
  {
    CommaParse();
    Aggregate.SumOfSmallValues([1, 2]);
  }

  lemma CommaParse()
    ensures ParseInput("//;\n1;2,3") == [1, 2]
  {
    var input := "//;\n1;2,3";
    var buf := input + ['\0'];
    assert buf == "//;\n1;2,3\0";
    CommaHeader(input);
    assert (set c | c in ";") == {';'};
    CommaFirstLine(buf);
    CommaLine(buf);
  }

  /** The header "//;" names ";" and the payload starts at index 4. */
  lemma CommaHeader(input: string)
    requires input == "//;\n1;2,3"
    ensures Header.LineEnd(input[2..]) == 1 && input[2..][..1] == ";"
  {
    assert input[2..] == ";" + "\n1;2,3";
    Header.LineEndAt(";", "\n1;2,3");
  }

  /** `strtok(input + 4, "\n")` finds no '\n': the line runs to the end. */
  lemma CommaFirstLine(buf: string)
    requires buf == "//;\n1;2,3\0"
    ensures Strtok(Tokenizer(buf, 0), At(4), {'\n'}) == Call(At(4), Tokenizer(buf, 9))
  {
    StringEndAt(buf, 4, 9);
    assert FindDelimiter(buf, 4, 9, {'\n'}) == 9;
  }

  lemma CommaLine(buf: string)
    requires buf == "//;\n1;2,3\0"
    ensures LineLoop(Tokenizer(buf, 9), At(4), {';'}, [], 10) == [1, 2]
  {
    assert FindDelimiter(buf, 4, 9, {';'}) == 5;
    StringEndAt(buf, 4, 9);
    var buf2 := buf[5 := '\0'];
    assert Strtok(Tokenizer(buf, 9), At(4), {';'}) == Call(At(4), Tokenizer(buf2, 6));
    CommaNumbers(buf2);
    StringEndAt(buf2, 9, 9);
    assert Strtok(Tokenizer(buf2, 9), Null, {'\n'}) == Call(Null, Tokenizer(buf2, 9));
  }

  /** One round of the inner loop: the token at `i` converts to `value`. */
  lemma NumberStep(st: Tokenizer, i: nat, delims: set<char>, numbers: seq<int>, fuel: nat, value: int)
    requires Valid(st) && i < |st.buffer| && fuel > 0 && |numbers| < MaxNumbers
    requires Strtol(st.buffer[i..StringEnd(st.buffer, i)]) == value
    ensures var next := Strtok(st, Null, delims);
      NumberLoop(st, At(i), delims, numbers, fuel)
        == NumberLoop(next.state, next.token, delims, numbers + [value], fuel - 1)
  {
  }

  lemma CommaNumbers(buf2: string)
    requires buf2 == "//;\n1" + ['\0'] + "2,3\0"
    ensures NumberLoop(Tokenizer(buf2, 6), At(4), {';'}, [], 10) == ([1, 2], Tokenizer(buf2, 9))
  {
    CommaTokens(buf2);
    NumberStep(Tokenizer(buf2, 6), 4, {';'}, [], 10, 1);
    assert [] + [1] == [1];
    CommaSecondNumber(buf2);
  }

  lemma CommaSecondNumber(buf2: string)
    requires buf2 == "//;\n1" + ['\0'] + "2,3\0"
    ensures NumberLoop(Tokenizer(buf2, 9), At(6), {';'}, [1], 9) == ([1, 2], Tokenizer(buf2, 9))
  {
    StringEndAt(buf2, 6, 9);
    StringEndAt(buf2, 9, 9);
    assert Strtok(Tokenizer(buf2, 9), Null, {';'}) == Call(Null, Tokenizer(buf2, 9));
    assert buf2[6..9] == [DigitChar(2)] + ",3";
    ReadsDigit(2, ",3");
    NumberStep(Tokenizer(buf2, 9), 6, {';'}, [1], 9, 2);
    assert [1] + [2] == [1, 2];
  }

  lemma CommaTokens(buf2: string)
    requires buf2 == "//;\n1" + ['\0'] + "2,3\0"
    ensures Strtok(Tokenizer(buf2, 6), Null, {';'}) == Call(At(6), Tokenizer(buf2, 9))
    ensures Strtol(buf2[4..StringEnd(buf2, 4)]) == 1
  {
    StringEndAt(buf2, 4, 5);
    StringEndAt(buf2, 6, 9);
    assert FindDelimiter(buf2, 6, 9, {';'}) == 9;
    assert buf2[4..5] == [DigitChar(1)] + [];
    ReadsDigit(1, []);
  }
}
