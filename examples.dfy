/**
 * The parser's unit tests and the boundary cases of its validators,
 * stated as lemmas about the model. Each concrete token is passed in as
 * a parameter fixed by the precondition.
 */
module ParserExamples {

  import opened Text
  import opened LogParser

  /** "Jul" is a month and keeps its casing. */
  lemma ValidMonth(tok: string)
    requires tok == "Jul"
    ensures ParseMonth(tok) == Ok("Jul")
  {
    assert ToAsciiLowercase(tok) == "jul";
  }

  /** Upper case is accepted too, and kept: "JUL" stays "JUL". */
  lemma UpperCaseMonth(tok: string)
    requires tok == "JUL"
    ensures ParseMonth(tok) == Ok("JUL")
  {
    assert ToAsciiLowercase(tok) == "jul";
  }

  /** "xxx" is not a month. */
  lemma InvalidMonthToken(tok: string)
    requires tok == "xxx"
    ensures ParseMonth(tok) == Err(InvalidMonth("xxx"))
  {
    assert ToAsciiLowercase(tok) == "xxx";
  }

  lemma SingleDigit(tok: string, d: nat)
    requires d < 10 && tok == [DigitChar(d)]
    ensures ParseU32(tok) == Some(d)
  {
    assert tok[0] != '+';
    assert AllDigits(tok);
    assert tok[..0] == [];
    assert DigitsValue(tok) == d;
  }

  /** Day "1" is accepted as "1". */
  lemma ValidDay(tok: string)
    requires tok == "1"
    ensures ParseDay(tok) == Ok("1")
  {
    SingleDigit(tok, 1);
  }

  /** Day "8" is accepted as "8". */
  lemma SecondTestDay(tok: string)
    requires tok == "8"
    ensures ParseDay(tok) == Ok("8")
  {
    SingleDigit(tok, 8);
  }

  /** Day "0" is rejected. */
  lemma ZeroDay(tok: string)
    requires tok == "0"
    ensures ParseDay(tok) == Err(InvalidDay("0"))
  {
    SingleDigit(tok, 0);
  }

  /** The largest day, 31, is accepted; 32 is not. */
  lemma DayUpperBound(ok: string, bad: string)
    requires ok == "31" && bad == "32"
    ensures ParseDay(ok) == Ok("31")
    ensures ParseDay(bad) == Err(InvalidDay("32"))
  {
    assert ok[..1] == "3" && "3"[..0] == [];
    assert DigitsValue(ok) == 31;
    assert NatToString(31) == "31";
    assert bad[..1] == "3";
    assert DigitsValue(bad) == 32;
  }

  /** A leading zero or a `+` sign is accepted and dropped from the field. */
  lemma NonCanonicalDays(zero: string, plus: string)
    requires zero == "01" && plus == "+5"
    ensures ParseDay(zero) == Ok("1")
    ensures ParseDay(plus) == Ok("5")
  {
    assert zero[..1] == "0" && "0"[..0] == [];
    assert DigitsValue(zero) == 1;
    assert plus[1..] == "5" && "5"[..0] == [];
    assert DigitsValue("5") == 5;
  }

  /** Any number of leading zeros is accepted: "007" is the day "7". */
  lemma LeadingZerosDay(tok: string)
    requires tok == "007"
    ensures ParseDay(tok) == Ok("7")
  {
    assert NatToString(7) == "7";
    assert tok == "00" + NatToString(7);
    SpelledU32Parsed(tok, 7, "00");
  }

  /** A minus sign is never accepted. */
  lemma NegativeDay(tok: string)
    requires tok == "-1"
    ensures ParseDay(tok) == Err(InvalidDay("-1"))
  {
    assert tok[0] == '-';
  }

  /** The first unit test's time passes unchanged. */
  lemma FirstTestTime(t: string)
    requires t == "09:01:05"
    ensures TimeCheck(t) == Ok(t)
  {
    assert t[0..2] == "09" && t[3..5] == "01" && t[6..8] == "05";
    TimeCheckAccepts(t);
  }

  /** The second unit test's time passes unchanged. */
  lemma SecondTestTime(t: string)
    requires t == "06:11:46"
    ensures TimeCheck(t) == Ok(t)
  {
    assert t[0..2] == "06" && t[3..5] == "11" && t[6..8] == "46";
    TimeCheckAccepts(t);
  }

  /** Each part is only checked for two bytes and a `u32` value: "+1:00:00" passes. */
  lemma SignedHour(t: string)
    requires t == "+1:00:00"
    ensures TimeCheck(t) == Ok(t)
  {
    assert t[0..2] == "+1" && t[3..5] == "00" && t[6..8] == "00";
    TimeCheckAccepts(t);
  }

  /** Two parts is `InvalidTime`. */
  lemma TwoPartTime(two: string)
    requires two == "09:01"
    ensures TimeCheck(two) == Err(InvalidTime("09:01"))
  {
    assert two == "09" + [':'] + "01";
    assert multiset(two)[':'] == 1;
    TimeCheckErrors(two);
  }

  /** Three parts of which `ps` is the list, joined by ':', split back into `ps`. */
  lemma ThreeParts(tok: string, ps: seq<string>)
    requires |ps| == 3 && forall i :: 0 <= i < 3 ==> ':' !in ps[i]
    requires tok == ps[0] + ":" + ps[1] + ":" + ps[2]
    ensures SplitOn(tok, ':') == ps
  {
    JoinThree(ps, ":");
    SplitOfJoin(ps, ':');
  }

  /** A one-digit hour is one byte long: "Invalid time format". */
  lemma OneDigitHour(tok: string, ps: seq<string>)
    requires tok == "9:01:05" && ps == ["9", "01", "05"]
    ensures TimeCheck(tok) == Err(InvalidTimeFormat("9:01:05"))
  {
    ThreeParts(tok, ps);
    assert ByteLength(ps[0]) == 1;
    TimeErrorKind(tok, 0);
  }

  /**
   * "é" is two bytes long in UTF-8, so it passes the length check and
   * fails as "not a number".
   */
  lemma TwoByteCharacterHour(tok: string, ps: seq<string>)
    requires tok == "\U{E9}:00:00" && ps == ["\U{E9}", "00", "00"]
    ensures TimeCheck(tok) == Err(TimeNotANumber("\U{E9}:00:00"))
  {
    ThreeParts(tok, ps);
    assert ByteLength(ps[0]) == 2;
    assert ParseU32(ps[0]).None?;
    TimeErrorKind(tok, 0);
  }

  /** A three-character minute part is "Invalid time format", whatever follows. */
  lemma LongMinute(tok: string, ps: seq<string>)
    requires tok == "09:011:x" && ps == ["09", "011", "x"]
    ensures TimeCheck(tok) == Err(InvalidTimeFormat("09:011:x"))
  {
    ThreeParts(tok, ps);
    TwoBytesAndNumber(ps[0]);
    assert IsTwoCharNumber(ps[0]);
    assert ByteLength(ps[1]) == 3;
    TimeErrorKind(tok, 1);
  }

  /** The first unit test's process token gives "com.apple.CDScheduler" and "43". */
  lemma FirstTestProcess(tok: string)
    requires tok == "com.apple.CDScheduler[43]:"
    ensures ParseProcessNameAndPid(tok) == Ok(("com.apple.CDScheduler", "43"))
  {
    assert tok == "com.apple.CDScheduler" + "[" + "43" + "]:";
    ProcessRoundTrip("com.apple.CDScheduler", "43");
  }

  /** The second unit test's process token gives "WindowServer" and "184". */
  lemma SecondTestProcess(tok: string)
    requires tok == "WindowServer[184]:"
    ensures ParseProcessNameAndPid(tok) == Ok(("WindowServer", "184"))
  {
    assert tok == "WindowServer" + "[" + "184" + "]:";
    ProcessRoundTrip("WindowServer", "184");
  }

  /** "proc[43" lacks the "]:" suffix: the pid is empty and no error is raised. */
  lemma MissingPidSuffix(tok: string)
    requires tok == "proc[43"
    ensures ParseProcessNameAndPid(tok) == Ok(("proc", ""))
  {
    assert tok == "proc" + "[" + "43";
    PidWithoutSuffix("proc", "43");
  }

  /** No '[' or two of them: the process token is rejected. */
  lemma InvalidProcesses(none: string, two: string)
    requires none == "proc" && two == "a[b[c]:"
    ensures ParseProcessNameAndPid(none) == Err(InvalidProcess("proc"))
    ensures ParseProcessNameAndPid(two) == Err(InvalidProcess("a[b[c]:"))
  {
    assert '[' !in none;
    assert two == "a" + "[" + "b" + "[" + "c]:";
    assert multiset(two)['['] == 2;
  }

  /**
   * The first unit-test line, at the level of its whitespace tokens: the
   * first five give month, day, time, hostname, process and pid, and the
   * tokens that follow, joined with single spaces, form the message.
   */
  lemma FirstTestLine(parts: seq<string>, tail: seq<string>, messageWords: seq<string>)
    requires tail == ["1", "09:01:05", "calvisitor-10-105-160-95", "com.apple.CDScheduler[43]:"]
    requires parts == ["Jul"] + tail + messageWords
    ensures ParseFields(parts)
      == Ok(Record("Jul", "1", "09:01:05", "calvisitor-10-105-160-95", "com.apple.CDScheduler", "43",
        JoinWith(messageWords, " ")))
  {
    ValidMonth(parts[0]);
    ValidDay(parts[1]);
    FirstTestTime(parts[2]);
    FirstTestProcess(parts[4]);
    assert parts[5..] == messageWords;
    ParseFieldsAccepts(parts);
  }

  /** The second unit-test line, likewise. */
  lemma SecondTestLine(parts: seq<string>, tail: seq<string>, messageWords: seq<string>)
    requires tail == ["8", "06:11:46", "calvisitor-10-105-162-124", "WindowServer[184]:"]
    requires parts == ["Jul"] + tail + messageWords
    ensures ParseFields(parts)
      == Ok(Record("Jul", "8", "06:11:46", "calvisitor-10-105-162-124", "WindowServer", "184",
        JoinWith(messageWords, " ")))
  {
    ValidMonth(parts[0]);
    SecondTestDay(parts[1]);
    SecondTestTime(parts[2]);
    SecondTestProcess(parts[4]);
    assert parts[5..] == messageWords;
    ParseFieldsAccepts(parts);
  }

  /** The four tokens after the month in the first unit-test line contain no whitespace. */
  lemma FirstTestTokensAreWords(tail: seq<string>)
    requires tail == ["1", "09:01:05", "calvisitor-10-105-160-95", "com.apple.CDScheduler[43]:"]
    ensures forall i :: 0 <= i < |tail| ==> IsWord(tail[i])
  {
    assert IsVisibleAscii(tail[0]) && IsVisibleAscii(tail[1]);
    assert IsVisibleAscii(tail[2]) && IsVisibleAscii(tail[3]);
    VisibleAsciiIsWord(tail[0]);
    VisibleAsciiIsWord(tail[1]);
    VisibleAsciiIsWord(tail[2]);
    VisibleAsciiIsWord(tail[3]);
  }

  /** The four tokens after the month in the second unit-test line contain no whitespace. */
  lemma SecondTestTokensAreWords(tail: seq<string>)
    requires tail == ["8", "06:11:46", "calvisitor-10-105-162-124", "WindowServer[184]:"]
    ensures forall i :: 0 <= i < |tail| ==> IsWord(tail[i])
  {
    assert IsVisibleAscii(tail[0]) && IsVisibleAscii(tail[1]);
    assert IsVisibleAscii(tail[2]) && IsVisibleAscii(tail[3]);
    VisibleAsciiIsWord(tail[0]);
    VisibleAsciiIsWord(tail[1]);
    VisibleAsciiIsWord(tail[2]);
    VisibleAsciiIsWord(tail[3]);
  }

  /**
   * Text laid out as the unit-test lines are: "Jul", two spaces, then the
   * remaining tokens separated by single spaces, splits into those tokens.
   */
  lemma TestLayoutWords(line: string, tail: seq<string>)
    requires tail != []
    requires forall i :: 0 <= i < |tail| ==> IsWord(tail[i])
    requires line == "Jul" + "  " + JoinWith(tail, " ")
    ensures Words(line) == ["Jul"] + tail
  {
    var parts := ["Jul"] + tail;
    assert IsWord("Jul");
    ConcatWords(["Jul"], tail);
    var rest := JoinWith(tail, " ");
    assert parts[1..] == tail;
    assert JoinWith(parts, " ") == "Jul" + [' '] + rest;
    assert line == "Jul" + [' ', ' '] + rest;
    WordsIgnoreWhitespaceRun("Jul", ' ', ' ', rest);
    WordsOfJoin(parts);
  }

  /**
   * The first unit-test line as text, with its double space after "Jul";
   * the message is any sequence of words, here joined by single spaces.
   */
  lemma FirstTestLineText(line: string, tail: seq<string>, messageWords: seq<string>)
    requires tail == ["1", "09:01:05", "calvisitor-10-105-160-95", "com.apple.CDScheduler[43]:"]
    requires forall i :: 0 <= i < |messageWords| ==> IsWord(messageWords[i])
    requires line == "Jul" + "  " + JoinWith(tail + messageWords, " ")
    ensures LineFields(line)
      == Ok(Record("Jul", "1", "09:01:05", "calvisitor-10-105-160-95", "com.apple.CDScheduler", "43",
        JoinWith(messageWords, " ")))
  {
    FirstTestTokensAreWords(tail);
    ConcatWords(tail, messageWords);
    TestLayoutWords(line, tail + messageWords);
    assert ["Jul"] + (tail + messageWords) == ["Jul"] + tail + messageWords;
    FirstTestLine(["Jul"] + tail + messageWords, tail, messageWords);
  }

  /**
   * The second unit-test line as text, with its double space after "Jul"
   * and its trailing newline.
   */
  lemma SecondTestLineText(line: string, tail: seq<string>, messageWords: seq<string>)
    requires tail == ["8", "06:11:46", "calvisitor-10-105-162-124", "WindowServer[184]:"]
    requires forall i :: 0 <= i < |messageWords| ==> IsWord(messageWords[i])
    requires line == "Jul" + "  " + JoinWith(tail + messageWords, " ") + "\n"
    ensures LineFields(line)
      == Ok(Record("Jul", "8", "06:11:46", "calvisitor-10-105-162-124", "WindowServer", "184",
        JoinWith(messageWords, " ")))
  {
    var text := "Jul" + "  " + JoinWith(tail + messageWords, " ");
    SecondTestTokensAreWords(tail);
    ConcatWords(tail, messageWords);
    TestLayoutWords(text, tail + messageWords);
    assert line == text + ['\n'];
    WordsIgnoreTrailingWhitespace(text, '\n');
    assert ["Jul"] + (tail + messageWords) == ["Jul"] + tail + messageWords;
    SecondTestLine(["Jul"] + tail + messageWords, tail, messageWords);
  }
}
