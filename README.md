# log_analyzer: a verified model of the log-line parser

The log analyzer reads macOS-style syslog lines such as

    Jul  1 09:01:05 calvisitor-10-105-160-95 com.apple.CDScheduler[43]: Thermal pressure state: 1

and splits each one into seven fields: month, day, time, hostname, process name, pid and message.
This project models that parser (`src/main.rs`, `parse_record` and the helpers it calls) in Dafny
and proves what it accepts, what it returns and which error it reports.

- `text.dfy`, module `Text`: the pieces of Rust's standard library the parser relies on.
  - `str::split_whitespace` over the Unicode White_Space set.
  - `str::split(char)`, `join`, `strip_suffix` and UTF-8 byte length.
  - `str::parse::<u32>`, which accepts an optional `+` and rejects values above `u32::MAX`.
  - `u32::to_string`.
- `parser.dfy`, module `LogParser`: the parser itself.
  - `ParseMonth`, `ParseDay` and `ParseProcessNameAndPid` are functions.
  - `ParseTime` is a method with the source's loop over the three time parts.
  - `SplitIntoFields` walks the token sequence with a cursor and stops at the first failure.
  - `ParseRecord` is the entry point.
  - Errors are the `ParseError` datatype, one constructor per error the source formats. The token
    the error is about is kept.
  - The methods are proved against the ghost functions `TimeCheck` and `LineFields`. The lemmas
    next to those functions prove what a caller can rely on:
    - which lines are accepted, if and only if;
    - that the first failing field decides the error;
    - that whitespace runs and a trailing newline do not matter;
    - what the message holds;
    - a round trip: printing a record as a log line and parsing it back gives the record.
- `examples.dfy`, module `ParserExamples`: the repository's unit tests (`src/main.rs:126-209`) and
  the validators' boundary cases, stated as lemmas.

Behaviour of the source that the model keeps, and that a reader may not expect:

- Month: the token is matched case-insensitively but returned with its own casing.
- Day: `"01"` and `"+5"` are accepted and returned as `"1"` and `"5"`, the canonical number.
- Time: each part only has to be two bytes long and parse as a `u32`, so `"+1:00:00"` is
  accepted.
- Time errors: the first failing part decides. A part of the wrong length gives
  `InvalidTimeFormat`, and a two-byte part that is not a number gives `TimeNotANumber`
  (`TimeErrorKind`). Length is measured in UTF-8 bytes, so a part made of one two-byte character
  is "not a number", not "wrong format" (`TwoByteCharacterHour`).
- Process: the token must contain exactly one `[`. When it does not end in `]:`, the pid is the
  empty string, not an error (`PidWithoutSuffix`).
- Hostname: any token is accepted.
- Message: the tokens after the process, joined with single spaces. The line's own spacing is not
  kept.

## Model

| member | source | states |
|---|---|---|
| LogParser.ParseRecord | src/main.rs:22-36 | The parser's result for a line is `LineFields(line)`: the fields, or the first error. |
| LogParser.SplitIntoFields | src/main.rs:38-72 | Consuming the whitespace tokens one at a time gives exactly the decision list `LineFields`: the first missing token or failing check, in field order, is the error. |
| LogParser.Next | src/main.rs:43-44 | Taking the next token succeeds exactly when one is left and yields it; otherwise it gives the "missing" error for that field. |
| LogParser.ParseFields | src/main.rs:41-71 | The decision list for a line's tokens: the first missing token or failing check, in the order month, day, time, hostname, process, gives the error; otherwise the record. `ParseFieldsAccepts`, `FirstFailureDecides` and `LaterTokensIgnored` state what it means. |
| LogParser.ParseFieldsAccepts | src/main.rs:41-71 | A token sequence is accepted iff it has at least five tokens and month, day, time and process pass their checks. On success: month, time and hostname are the tokens themselves, day is the normalised day, process and pid come from the fifth token, and the message is the remaining tokens joined by single spaces. |
| LogParser.FirstFailureDecides | src/main.rs:41-61 | A "missing" error means the tokens ran out exactly at that field. An "invalid" error is exactly the error that field's own check returned for that field's token, passed on unchanged: for the time field, `TimeCheck`'s error, so `TimeCheckErrors` and `TimeErrorKind` decide which time error a whole line reports. Every earlier field passed its check. |
| LogParser.SameFailure | src/main.rs:41-61 | When field `k` fails and all earlier fields pass, every sequence agreeing on the first `k+1` tokens gives the same result. |
| LogParser.LaterTokensIgnored | src/main.rs:41-61 | Once a field fails, nothing after it is looked at: any sequence agreeing up to the failing token fails with the same error. |
| LogParser.ShortLinesRejected | src/main.rs:41-61 | A line with fewer than five whitespace tokens is always rejected. |
| LogParser.WhitespaceRunIgnored | src/main.rs:41 | Two whitespace characters in a row separate tokens exactly as one does. |
| LogParser.LeadingWhitespaceIgnored | src/main.rs:41 | Whitespace before the line does not change the result. |
| LogParser.TrailingWhitespaceIgnored | src/main.rs:41 | Whitespace after the line, such as a newline, does not change the result. |
| LogParser.MessageIsRemainingTokens | src/main.rs:62 | The message's tokens are the line's tokens after the fifth, in order. It is empty iff the line has exactly five tokens. Its only whitespace is single spaces between tokens. |
| LogParser.FormatThenParse | src/main.rs:22-81 | Writing a well-formed record as `month day time host process[pid]: message` and parsing it gives the same record back. |
| LogParser.ParsedIsWellFormed | src/main.rs:22-81 | Every record the parser returns is well formed. With `FormatThenParse`, that makes printing and re-parsing any parsed record the identity. |
| LogParser.ParseFormatTokens | src/main.rs:41-81 | The tokens of a well-formed record, printed as a log line, parse back to the record. |
| LogParser.ParseProcessNameAndPid | src/main.rs:74-81 | Accepted iff the token has exactly one `[`. Neither field contains `[`. A rejection is `InvalidProcess` with the token. |
| LogParser.SplitAtOnlyBracket | src/main.rs:75 | A token with a single `[` splits into exactly the text before it and the text after it. |
| LogParser.ProcessFields | src/main.rs:74-81 | The process name is the text before the `[`. The pid is the text after it minus a trailing `]:`, or the empty string when there is no such suffix. |
| LogParser.ProcessRoundTrip | src/main.rs:74-81 | Parsing `name[pid]:` gives back the name and the pid, for any pair with no `[`. |
| LogParser.PidWithoutSuffix | src/main.rs:77 | A token without the `]:` suffix is accepted with an empty pid, not rejected. |
| LogParser.TimeCheck | src/main.rs:83-98 | The decision list for the time token: `InvalidTime` unless there are three `:`-separated parts; otherwise the first part that is not two bytes long, or not a u32, decides the error; otherwise the parts re-joined. What it accepts is stated by `TimeCheckAccepts`, and which error it gives by `TimeCheckErrors` and `TimeErrorKind`. |
| LogParser.ParseTime | src/main.rs:83-98 | The loop checks the three parts in order, length first and then the number. It returns the first failure's error, or the re-joined parts. The result equals `TimeCheck`. |
| LogParser.TimeCheckAccepts | src/main.rs:83-98 | A time is accepted iff it is `NN:NN:NN`, each `NN` being two digits or `+` and a digit. The accepted value is the token itself. |
| LogParser.AcceptedTimeIsClockTime | src/main.rs:84-95 | An accepted time is `NN:NN:NN`, and the re-joined parts equal the token. |
| LogParser.ClockTimeAccepted | src/main.rs:84-95 | Every `NN:NN:NN` token is accepted unchanged. |
| LogParser.TimeCheckErrors | src/main.rs:84-96 | `InvalidTime` is reported iff the token does not contain exactly two `:`. Every rejection is one of the three time errors, with the token. |
| LogParser.FirstBadPartAt | src/main.rs:86-93 | When part `k` is the first to fail, the loop's error is `InvalidTimeFormat` if that part is not two bytes long and `TimeNotANumber` otherwise. The parts after it are not looked at. |
| LogParser.TimeErrorKind | src/main.rs:84-95 | For a three-part time whose first failing part is `k`: the error is `InvalidTimeFormat` iff part `k` is not two bytes long, and `TimeNotANumber` iff it is. |
| LogParser.TwoBytesAndNumber | src/main.rs:87-92 | A part is two UTF-8 bytes long and parses as a `u32` iff it is two digits or `+` and a digit. |
| LogParser.ParseMonth | src/main.rs:100-109 | On success the value is the token itself, with its own casing: three ASCII letters. A rejection is `InvalidMonth` with the token. |
| LogParser.ParseMonthIgnoresCase | src/main.rs:100-109 | A month is accepted iff it spells one of the twelve abbreviations, with each letter in either case. |
| LogParser.ParseDay | src/main.rs:111-120 | Accepted iff the token parses as a `u32` in 1..31. The value is that number's canonical decimal form, which parses to the same number. A rejection is `InvalidDay` with the token. |
| LogParser.ParseDayIdempotent | src/main.rs:111-120 | The day the parser produces is accepted again, unchanged. |
| Text.Words | src/main.rs:41 | `split_whitespace` yields only non-empty tokens free of whitespace. |
| Text.WordsSplitAtWhitespace | src/main.rs:41 | Splitting at any whitespace character splits the token list there. No empty tokens appear. |
| Text.WordsIgnoreWhitespaceRun | src/main.rs:41 | A run of whitespace delimits tokens as a single whitespace character does. |
| Text.WordsIgnoreLeadingWhitespace | src/main.rs:41 | Leading whitespace yields no token. |
| Text.WordsIgnoreTrailingWhitespace | src/main.rs:41 | Trailing whitespace yields no token. |
| Text.WordsOfJoin | src/main.rs:62 | Joining tokens with single spaces and splitting on whitespace gives the tokens back. |
| Text.JoinedWordsSingleSpaced | src/main.rs:62 | The joined tokens are empty iff there are none. Their only whitespace is single spaces between tokens. |
| Text.SplitOn | src/main.rs:75 | `split(c)` yields at least one piece, and no piece contains `c`. |
| Text.SplitOnCount | src/main.rs:75-76 | `split(c)` yields one more piece than there are occurrences of `c`. |
| Text.JoinOfSplit | src/main.rs:84 | Joining the pieces of `split(c)` with `c` gives the input back. |
| Text.SplitOfJoin | src/main.rs:84 | Splitting a join of `c`-free pieces on `c` gives the pieces back. |
| Text.StripSuffix | src/main.rs:77 | A stripped result followed by the suffix is the input. No result means the input does not end with the suffix. |
| Text.ParseU32 | src/main.rs:90 | A parsed value fits in 32 bits, and the text is digits with at most a leading `+`. The full characterisation is `ParseU32Spelling`. |
| Text.ParseU32Spelling | src/main.rs:112-113 | `parse::<u32>` yields `n` iff `n` fits in 32 bits and the text is an optional `+`, any number of `0`s, then the canonical decimal of `n`. Every other text is rejected. |
| Text.ParsedU32Spelled | src/main.rs:112-113 | Every accepted text has that spelling, with the result as its value. |
| Text.SpelledU32Parsed | src/main.rs:112-113 | Every text with that spelling is accepted, and yields the spelled number. |
| Text.ZerosPrefixValue | src/main.rs:112 | Leading zeros do not change the value of digit text. |
| Text.NatToString | src/main.rs:116 | `to_string` gives a canonical decimal denoting the number. |
| Text.ParseU32OfNatToString | src/main.rs:112-116 | Parsing the canonical decimal of a `u32` gives the number back. |
| Text.NatToStringOfCanonical | src/main.rs:112-116 | Canonical decimal text is reproduced by parsing it and printing it again. |
| Text.ByteLength | src/main.rs:87 | `str::len` counts UTF-8 bytes: between one and four per character, and exactly one per character iff the text is ASCII. |
| Text.ToAsciiLowercase | src/main.rs:104 | Lowercasing keeps the length and leaves no upper-case ASCII letter. Each character is unchanged, or is an upper-case ASCII letter moved to its lower-case letter. `ParseMonthIgnoresCase` is its partner. |
| Text.IsWhitespace | src/main.rs:41 | The Unicode White_Space characters `split_whitespace` separates on: U+0009 to U+000D, U+0020, U+0085, U+00A0, U+1680, U+2000 to U+200A, U+2028, U+2029, U+202F, U+205F and U+3000. What splitting on them gives is stated by `WordsSplitAtWhitespace` and `WordsOfJoin`. |
| Text.JoinWith | src/main.rs:62 | `join(sep)`: the pieces with `sep` between neighbours. Its partners are `WordsOfJoin` (splitting a single-space join gives the words back), `JoinOfSplit` and `SplitOfJoin` (joining undoes splitting on a character, and the reverse). |
| ParserExamples.ValidMonth | src/main.rs:127-129 | `"Jul"` is accepted as `"Jul"`. |
| ParserExamples.UpperCaseMonth | src/main.rs:104 | `"JUL"` is accepted and keeps its casing. |
| ParserExamples.InvalidMonthToken | src/main.rs:132-134 | `"xxx"` is rejected. |
| ParserExamples.ValidDay | src/main.rs:137-139 | `"1"` is accepted as `"1"`. |
| ParserExamples.ZeroDay | src/main.rs:142-144 | `"0"` is rejected. |
| ParserExamples.DayUpperBound | src/main.rs:115 | `"31"` is accepted and `"32"` is rejected. |
| ParserExamples.NonCanonicalDays | src/main.rs:112-116 | `"01"` and `"+5"` are accepted as `"1"` and `"5"`. |
| ParserExamples.LeadingZerosDay | src/main.rs:112-116 | `"007"` is accepted as the day `"7"`. |
| ParserExamples.NegativeDay | src/main.rs:112-114 | `"-1"` is rejected. |
| ParserExamples.SignedHour | src/main.rs:86-93 | `"+1:00:00"` passes the time check. |
| ParserExamples.TwoPartTime | src/main.rs:85-96 | `"09:01"` is `InvalidTime`. |
| ParserExamples.OneDigitHour | src/main.rs:87-89 | `"9:01:05"` is `InvalidTimeFormat`: its hour is one byte long. |
| ParserExamples.TwoByteCharacterHour | src/main.rs:87-92 | `"é:00:00"` is `TimeNotANumber`: `é` is two UTF-8 bytes, so it passes the length check and then fails as a number. |
| ParserExamples.LongMinute | src/main.rs:86-89 | `"09:011:x"` is `InvalidTimeFormat`: the minute is checked before the third part is looked at. |
| ParserExamples.FirstTestProcess | src/main.rs:147-149 | `"com.apple.CDScheduler[43]:"` gives `"com.apple.CDScheduler"` and `"43"`. |
| ParserExamples.MissingPidSuffix | src/main.rs:77 | `"proc[43"` gives `"proc"` and an empty pid. |
| ParserExamples.InvalidProcesses | src/main.rs:76-80 | `"proc"` (no `[`) and `"a[b[c]:"` (two) are rejected. |
| ParserExamples.FirstTestLine | src/main.rs:153-172 | The first test line's tokens give the expected month, day, time, hostname, process and pid. The message is the remaining tokens joined with single spaces. |
| ParserExamples.FirstTestLineText | src/main.rs:195-209 | The same holds for the line as text, with its double space after `Jul`. |
| ParserExamples.SecondTestLine | src/main.rs:175-192 | The second test line's tokens give the expected fields. |
| ParserExamples.SecondTestLineText | src/main.rs:175-192 | The same holds for the line as text, with its double space after `Jul` and its trailing newline. |

## Left out

- `main` (`src/main.rs:9-20`) opens a log file and prints each line. File I/O is outside the model.
- The repository has no code that aggregates parsed records over a whole log, so nothing of the
  kind is modelled.
- The error messages' text is not modelled. Each `format!` error is a `ParseError` constructor
  that keeps the offending token (or none, for a missing field).
- `to_lowercase` is modelled as ASCII lowercasing. For the month check this makes no difference:
  the month names are ASCII, and the only non-ASCII character whose lowercase form is ASCII is the
  KELVIN SIGN (to `k`). No month name contains `k`.
- Ownership, borrowing and allocation of `String`/`&str` are not modelled. Text is `seq<char>`.
  The byte length is computed from each character's UTF-8 width.
- The `HashSet` of month names is a sequence, and membership is what is modelled.
- FirstTestLine, FirstTestLineText, SecondTestLine, SecondTestLineText: the messages of the unit
  tests are stated as an arbitrary list of words joined by single spaces, which is how the test
  lines write them. The literal message text is not spelled out.
