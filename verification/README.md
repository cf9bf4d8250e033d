# String Calculator `add`, modelled in Dafny

The repository implements the String Calculator kata in C (`StringCalculator.h`).
`add(input)` takes a string and goes through four steps:

1. **Delimiter resolution.** A leading header `//<delimiter>\n` sets the delimiter. Otherwise the delimiter is `","`.
2. **Tokenization.** The payload is cut into tokens with `strtok`.
3. **Conversion.** Each token is converted with `strtol(…, 10)`.
4. **Validation and summation.** If any value is negative, all negatives are reported together. Otherwise the values up to 1000 are summed.

The model is a set of pure functions over immutable sequences:

- `decimal.dfy`, module `Decimal`: `%d` rendering (`IntToString`) and `strtol` base 10 (`Strtol`). `Strtol` skips leading `isspace` characters, takes one optional sign and then the longest run of digits. Trailing text is ignored, and a token with no digits in that position converts to 0.
- `tokens.dfy`, module `Tokens`: `Split`, which is `strtok` as a pure function. A token is a maximal run of non-separator characters, so runs of separators produce no empty tokens. This module also has `JoinWith`, `Weave` (tokens with given separator runs between them) and `Strip`.
- `header.dfy`, module `Header`: `Resolve` splits an input into a delimiter and a payload, or reports an unterminated header. `Separators` gives the active separator set.
- `aggregate.dfy`, module `Aggregate`: the negatives (`Negatives`) and the sum of the values ≤ 1000 (`Sum`). Also the C summing loop as a method (`CalculateSum`).
- `report.dfy`, module `Report`: the error messages, plus the C reporting loop as a method (`CollectNegatives`).
- `calculator.dfy`, module `Calculator`: `Add`, whose result is `Ok(sum) | InvalidInput | NegativesNotAllowed(values)`. It also has the end-to-end theorems, the C-style return value (`StatusCode`, which is -1 on error) and the error line (`Diagnostic`).
- `vectors.dfy`, module `Vectors`: every example of `StringCalculator.Tests.cpp`, derived from the general theorems.
- `as_written.dfy`, module `AsWritten`: the C parsing exactly as written. It models nested `strtok` calls with one shared saved pointer, and it is used only for the Findings below.

Where the C code and its tests disagree, the model follows the tests. Each such place is marked "Deviation" in `calculator.dfy` (in `Calculator.Add`, `Calculator.Verdict` or `Calculator.StatusCode`), with the source line it departs from:

- **Every line is processed.** The nested `strtok` calls of StringCalculator.h:50-59 read only the first line (see Findings).
- **`','` and `'\n'` stay separators after a custom delimiter.** StringCalculator.h:66 discards `","`. The separators are `'\n'`, `','` and every character of the delimiter.
- **Errors are values.** On negatives, the C code prints to `stderr` and exits. `Add` returns `NegativesNotAllowed` with the values in input order. `Diagnostic` gives the message `"Exception: negatives not allowed: "` followed by the values joined with `", "`.
- **A payload whose last character is a separator is `InvalidInput`.** The tests expect this for `"1,\n"`. The C code never checks it.
- **A header without a `'\n'` is `InvalidInput`.** For an input that starts with `'/'` and has no `'\n'` after its first two characters, the C code steps past the string terminator (StringCalculator.h:65-72). The model makes it an error. This includes `"/"` alone.

The header is triggered exactly as in the C code. The first character must be `'/'`, and the next character is skipped without being checked.

In three places the model keeps the C behaviour where a stricter calculator would reject the input:

- A token that is not a number converts with `strtol` semantics (`"x"` → 0, `"2,3"` → 2) rather than being rejected.
- Adjacent separators (`"1,,2"`) produce no empty token, so they are not an error.
- A delimiter is a set of characters, as `strtok` reads its second argument (StringCalculator.h:52). So `"[***]"` separates on `'['`, `'*'` and `']'`: its brackets are not parsed.

`Add` is a function, so calling it twice on the same input gives the same result by construction.

## Model

| member | source | states |
|---|---|---|
| Decimal.IntToString | StringCalculator.h:90 | `%d` output starts with `'-'` exactly for negative values and otherwise consists of digits; the digits are the fewest possible: at least one, and no leading zero unless the value is 0 |
| Decimal.Strtol | StringCalculator.h:55 | a token without any digit converts to 0; a negative result needs a `'-'` in the token |
| Decimal.StrtolReads | StringCalculator.h:55 | a token made of white space, at most one sign, digits and then text that does not start with a digit converts to the signed value of those digits; leading zeros and `'+'` change nothing, and a sign with no digit after it gives 0 |
| Decimal.StrtolNoLeadingNumber | StringCalculator.h:55 | a token that starts with something other than white space, a sign or a digit converts to 0 |
| Decimal.StrtolRoundTrip | StringCalculator.h:55 | `strtol` reads back every integer printed by `%d`, whatever non-digit text follows it |
| Decimal.ValueOfNatToString | StringCalculator.h:55 | the digit value of a natural number's decimal rendering is that number |
| Decimal.ParseAllRenders | StringCalculator.h:52-57 | converting the rendering of each value in a list gives the list back, in order |
| Decimal.ParseAll | StringCalculator.h:52-57 | one value per token, in token order, each the `strtol` of its token |
| Tokens.Split | StringCalculator.h:50-60 | every token is non-empty and contains no separator character |
| Tokens.SplitKeepsContent | StringCalculator.h:50-60 | the tokens, concatenated, are the input with its separator characters removed: nothing else is lost and nothing is reordered |
| Tokens.SplitEmptyIff | StringCalculator.h:50-51 | no token is produced exactly when every character is a separator, so the empty input has none |
| Tokens.SplitAppend | StringCalculator.h:50-60 | splitting distributes over a concatenation whose second part is empty or starts with a separator |
| Tokens.SplitWeave | StringCalculator.h:50-60 | tokens written with any non-empty runs of separators between them split back into exactly those tokens |
| Tokens.SplitJoin | StringCalculator.h:50-60 | tokens joined by a non-empty separator string split back into exactly those tokens |
| Tokens.SplitByLines | StringCalculator.h:50-59 | splitting into lines on `'\n'` and then each line on the separators gives the same tokens as one split, so every line contributes |
| Header.Resolve | StringCalculator.h:64-73 | without a leading `'/'`, the delimiter is `","` and the payload is the whole input; with one, the input is two skipped characters, the delimiter (which has no `'\n'`), `'\n'` and the payload; the header is unterminated exactly when no `'\n'` follows the first two characters |
| Header.ResolveHeader | StringCalculator.h:64-73 | a header `/?` + delimiter + `'\n'` + payload resolves back to that delimiter and payload |
| Header.SeparatorsSplitLines | StringCalculator.h:50-57 | cutting the payload into lines on `'\n'` and each line on `','` and the delimiter's characters gives exactly the tokens of one split over the separator set |
| Aggregate.CalculateSum | StringCalculator.h:30-38 | the summing loop computes the sum of the values that are at most 1000 |
| Aggregate.SumOfSmallValues | StringCalculator.h:30-38 | when every value is in 0..1000, the result is their arithmetic sum |
| Aggregate.SumSkipsLarge | StringCalculator.h:33 | a value above 1000 leaves the sum unchanged wherever it stands |
| Aggregate.SumBounds | StringCalculator.h:30-38 | without negatives, the sum lies between 0 and 1000 times the number of values |
| Aggregate.NegativesCount | StringCalculator.h:85-93 | the negatives list has one entry per negative position, and it holds exactly the negative values |
| Aggregate.NegativesAppend | StringCalculator.h:85-93 | the negatives of a concatenation are the negatives of the first part followed by those of the second |
| Report.CollectNegatives | StringCalculator.h:76-93 | the reporting loop collects the negatives in order and builds the prefix followed by the values joined with `", "` |
| Report.NegativesMessageRoundTrip | StringCalculator.h:77-93 | the message starts with the fixed prefix, and splitting the rest on `','` and `' '` and converting each piece gives back the reported values in order |
| Calculator.Verdict | StringCalculator.h:24-26 | the validation step yields either a non-negative sum or a non-empty list of negative values |
| Calculator.VerdictReportsAllNegatives | StringCalculator.h:76-99 | the result is a sum exactly when no value is negative; otherwise the error lists every negative in order, one entry per negative value |
| Calculator.Add | StringCalculator.h:20-27 | the empty input gives `Ok(0)`, and a successful sum is never negative |
| Calculator.PayloadRoundTrip | StringCalculator.h:50-57 | a payload of rendered values with separator runs between them does not end in a separator, and it parses back to the values |
| Calculator.AddDefaultWoven | StringCalculator.h:20-60 | for any integers written with runs of `','` and `'\n'` between them, `add` gives the verdict on exactly those integers |
| Calculator.AddCustomWoven | StringCalculator.h:41-73 | after a header `/?` + delimiter + `'\n'`, integers separated by runs of the delimiter's characters, `','` or `'\n'` give the verdict on exactly those integers |
| Calculator.AddSumsSmallValues | StringCalculator.Tests.cpp:10-27 | values in 0..1000 separated by `','` and `'\n'` add up to their arithmetic sum |
| Calculator.AddReportsEveryNegative | StringCalculator.Tests.cpp:40-53 | with at least one negative value, the result is the negatives error; it carries every negative in input order, and its length is the number of negative values |
| Calculator.AddRejectsTrailingSeparator | StringCalculator.Tests.cpp:66-71 | without a header, an input that ends in `','` or `'\n'` is invalid |
| Calculator.AddRejectsTrailingSeparatorAfterHeader | StringCalculator.Tests.cpp:66-71 | after a header, a payload that ends in any separator is invalid |
| Calculator.AddRejectsUnterminatedHeader | StringCalculator.h:65-72 | an input that starts with `'/'` and has no `'\n'` after its first two characters is invalid |
| Calculator.StatusCodeSignalsError | StringCalculator.Tests.cpp:42 | the returned integer is -1 exactly for the failures, and it is the sum otherwise |
| Vectors.EmptyInput | StringCalculator.Tests.cpp:5-7 | `""` gives 0 |
| Vectors.SingleValue | StringCalculator.Tests.cpp:10-12 | `"1"` gives 1 |
| Vectors.TwoValues | StringCalculator.Tests.cpp:15-17 | `"1,2"` gives 3 |
| Vectors.FiveValues | StringCalculator.Tests.cpp:20-22 | `"1,2,3,4,5"` gives 15 |
| Vectors.NewlineSeparated | StringCalculator.Tests.cpp:25-27 | `"1\n2,3"` gives 6 |
| Vectors.SingleCharacterDelimiter | StringCalculator.Tests.cpp:30-32 | `"//;\n1;2"` gives 3 |
| Vectors.BracketedDelimiter | StringCalculator.Tests.cpp:35-37 | `"//[***]\n1***2***3"` gives 6 |
| Vectors.OneNegative | StringCalculator.Tests.cpp:40-42 | `"1,-2,3"` fails with the negatives `[-2]` |
| Vectors.OneNegativeReport | StringCalculator.Tests.cpp:44 | the error line for `[-2]` is `"Exception: negatives not allowed: -2"` |
| Vectors.TwoNegatives | StringCalculator.Tests.cpp:48-50 | `"1,-2,-3"` fails with the negatives `[-2, -3]` |
| Vectors.TwoNegativesReport | StringCalculator.Tests.cpp:52 | the error line for `[-2, -3]` is `"Exception: negatives not allowed: -2, -3"` |
| Vectors.LargeValueIgnored | StringCalculator.Tests.cpp:56-58 | `"2,1001"` gives 2 |
| Vectors.MixedSeparators | StringCalculator.Tests.cpp:61-63 | `"//;\n1;1001\n2,3"` gives 6 |
| Vectors.CommaAfterCustomDelimiter | StringCalculator.Tests.cpp:61-63 | `"//;\n1;2,3"` gives 6: `','` keeps separating after a custom delimiter |
| Vectors.TrailingSeparator | StringCalculator.Tests.cpp:66-68 | `"1,\n"` is invalid input |
| Vectors.ErrorCodes | StringCalculator.Tests.cpp:68-70 | an error returns -1, and the invalid-input line is `"Exception: Invalid input"` |
| AsWritten.OnlyFirstLineIsRead | StringCalculator.h:50-59 | as written, `"1\n2,3"` parses to `[1]` and `add` returns 1 |
| AsWritten.CustomDelimiterDropsComma | StringCalculator.h:64-69 | as written, `"//;\n1;2,3"` parses to `[1, 2]` and `add` returns 3 |

## Left out

- `fprintf(stderr, …)` and `exit(EXIT_FAILURE)` (StringCalculator.h:96-97) are process I/O and termination. The error is a returned value, and its text is the pure function `Calculator.Diagnostic`. The trailing `'\n'` that `fprintf` adds is not part of it.
- The `MAX_NUMBERS` cap of 1000 parsed values (StringCalculator.h:9, 54) is dropped: the numbers are an unbounded sequence. `AsWritten` keeps the cap.
- The 256-byte message buffer (StringCalculator.h:77) and its possible overflow are not modelled. The message is an unbounded string.
- The two-byte `delimiter` array (StringCalculator.h:44, 69), which any delimiter longer than one character overflows, is not modelled. The delimiter is an unbounded string, in `AsWritten` as well.
- `strtok`'s hidden static pointer and its in-place writes into the `const` input are not modelled in `Add`, which uses a pure split. They are modelled only in `AsWritten`.
- C `int`/`long` overflow and `strtol`'s `ERANGE` clamping are not modelled. Integers are unbounded.
- `AsWritten.ParseInput` requires a C string (no NUL inside) and a terminated header, because the C code's behaviour is undefined otherwise; the buffer it tokenizes stands for a writable copy of the input. Its two loops carry a fuel bound equal to the buffer length, and no theorem states that this bound is never reached. The two counterexamples are computed with that fuel.
- `Calculator.Add`'s input stands for the characters before the C string's terminating NUL. A `'\0'` inside a Dafny string is an ordinary character here, whereas C would stop reading at it.
- Characters, not bytes: the model reads the input as a sequence of Unicode characters, while the C code works on `char` bytes. The two agree on ASCII text only. With a multi-byte delimiter such as `"é"`, `strtok` separates on each of its bytes, so it can cut inside another multi-byte character of the payload, which the model never does.
- `AsWritten` and both Findings assume that `add` receives a writable copy of its input. `strtok` writes NUL bytes into the string (StringCalculator.h:50-59), and writing into a string literal, as every test passes (StringCalculator.Tests.cpp:6-68), is undefined in C.
- The gtest harness, `CaptureStderr` and `main` (StringCalculator.Tests.cpp:41-43, 73-76) are out of scope. Their expectations appear as the `Vectors` lemmas.

## Findings

| source | as written | input that shows it | evidently intended | confidence | as-written member | corrected member |
|---|---|---|---|---|---|---|
| StringCalculator.h:50-59 | the inner `strtok(token, delimiter)` replaces the pointer saved by the outer `strtok(…, "\n")` and leaves it at the NUL that ended the first line, so the next `strtok(NULL, "\n")` returns NULL | `"1\n2,3"`: numbers `[1]`, `add` returns 1 | every line is split, and `add` returns 6 (StringCalculator.Tests.cpp:26) | high; not executed | AsWritten.OnlyFirstLineIsRead | Tokens.SplitByLines |
| StringCalculator.h:66 | the header's characters replace the default `","`, so after a custom delimiter a comma no longer separates and `strtol` stops at it | `"//;\n1;2,3"`: numbers `[1, 2]`, `add` returns 3 | `','` keeps separating, and `add` returns 6 (StringCalculator.Tests.cpp:62) | high; not executed | AsWritten.CustomDelimiterDropsComma | Calculator.AddCustomWoven |
