/** Delimiter resolution: an input whose first character is '/' carries a
    header line; the two characters after which the delimiter starts are
    skipped unread, the delimiter runs up to the first '\n', and the numbers
    follow that newline. Any other input uses the default delimiter ",". */
module Header {
  import opened Tokens

  datatype Resolution =
    | Resolved(delimiter: string, payload: string)
      /** A header with no '\n' after it: the delimiter text is all that is there. */
    | Unterminated(delimiter: string)

  const DefaultDelimiter: string := ","

  /** Position of the first '\n', or the length when there is none: the
      length of the leading run of non-'\n' characters. */
  function LineEnd(s: string): (k: nat)
    ensures k <= |s|
    ensures '\n' !in s[..k]
    ensures k < |s| ==> s[k] == '\n'
  {
    var k := RunLength(s, {'\n'});
    assert forall i | 0 <= i < k :: s[..k][i] != '\n';
    k
  }

  function Resolve(input: string): (r: Resolution)
    ensures (|input| == 0 || input[0] != '/') ==> r == Resolved(DefaultDelimiter, input)
    ensures r.Resolved? && |input| > 0 && input[0] == '/' ==>
      |input| >= 2 && input == input[..2] + r.delimiter + "\n" + r.payload
    ensures '\n' !in r.delimiter
    ensures r.Unterminated? <==> |input| > 0 && input[0] == '/' && (|input| < 2 || '\n' !in input[2..])
  {
    if |input| == 0 || input[0] != '/' then Resolved(DefaultDelimiter, input)
    else if |input| < 2 then Unterminated([])
    else
      var spec := input[2..];
      var k := LineEnd(spec);
      if k == |spec| then Unterminated(spec)
      else
        assert input == input[..2] + spec[..k] + "\n" + spec[k + 1..];
        Resolved(spec[..k], spec[k + 1..])
  }

  /** The characters that separate numbers: '\n' and ',' always, and every
      character of the delimiter, which is read as a set of characters the way
      `strtok` reads its second argument ("[***]" means '[', '*' and ']'). */
  function Separators(delimiter: string): (seps: set<char>)
    ensures '\n' in seps && ',' in seps
    ensures forall c :: c in seps <==> c == '\n' || c == ',' || c in delimiter
  {
    {'\n', ','} + set c | c in delimiter
  }

  /** The two-level split of the payload: cutting it into lines on '\n' and
      each line on ',' and the delimiter's characters gives exactly the tokens
      of one split over `Separators`. */
  lemma SeparatorsSplitLines(payload: string, delimiter: string)
    ensures Split(payload, Separators(delimiter))
      == SplitEachLine(Split(payload, {'\n'}), {','} + set c | c in delimiter)
  {
    var lineSeps := {','} + set c | c in delimiter;
    assert Separators(delimiter) == lineSeps + {'\n'};
    SplitByLines(payload, Separators(delimiter));
    SplitEachLineIgnoresAbsent(Split(payload, {'\n'}), lineSeps, {'\n'});
  }

  /** Writing a header and a payload and resolving them gives both back. */
  lemma ResolveHeader(marker: string, delimiter: string, payload: string)
    requires |marker| == 2 && marker[0] == '/'
    requires '\n' !in delimiter
    ensures Resolve(marker + delimiter + "\n" + payload) == Resolved(delimiter, payload)
  {
    var input := marker + delimiter + "\n" + payload;
    assert input[2..] == delimiter + "\n" + payload;
    assert LineEnd(delimiter + "\n" + payload) == |delimiter| by {
      assert delimiter + "\n" + payload == delimiter + ("\n" + payload);
      LineEndAt(delimiter, "\n" + payload);
    }
    assert (delimiter + "\n" + payload)[..|delimiter|] == delimiter;
    assert (delimiter + "\n" + payload)[|delimiter| + 1..] == payload;
  }

  lemma LineEndAt(line: string, rest: string)
    requires '\n' !in line
    requires |rest| > 0 && rest[0] == '\n'
    ensures LineEnd(line + rest) == |line|
  {
    assert NoneIn(line, {'\n'});
    RunLengthAppend(line, rest, {'\n'});
    RunLengthOfToken(line, {'\n'});
  }
}
