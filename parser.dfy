/**
 * The syslog-style line parser of the log analyzer (src/main.rs).
 *
 * A line is split on whitespace and its tokens are consumed in a fixed
 * order, each by its own validator: month, day, time, hostname, and the
 * `process[pid]:` token; the remaining tokens, joined with single spaces,
 * form the message. The first missing token or failing validator decides
 * the error.
 */
module LogParser {

  import opened Text

  /** The structured counterpart of the error strings the parser formats. */
  datatype ParseError =
    | NoMonth
    | InvalidMonth(token: string)
    | NoDay
    | InvalidDay(token: string)
    | NoTime
    | InvalidTimeFormat(token: string)  // a part that is not 2 bytes long
    | TimeNotANumber(token: string)     // a 2-byte part that is not a u32
    | InvalidTime(token: string)        // not exactly three ':'-separated parts
    | NoHostname
    | NoProcess
    | InvalidProcess(token: string)
  {
    /** The position, among the line's tokens, of the field the error is about. */
    function Field(): nat
    {
      match this
      case NoMonth | InvalidMonth(_) => 0
      case NoDay | InvalidDay(_) => 1
      case NoTime | InvalidTimeFormat(_) | TimeNotANumber(_) | InvalidTime(_) => 2
      case NoHostname => 3
      case NoProcess | InvalidProcess(_) => 4
    }

    /** The line ran out of tokens before this field. */
    predicate IsMissing()
    {
      NoMonth? || NoDay? || NoTime? || NoHostname? || NoProcess?
    }
  }

  datatype Result<+T> = Ok(value: T) | Err(error: ParseError)
  {
    predicate IsFailure()
    {
      Err?
    }

    function PropagateFailure<U>(): Result<U>
      requires Err?
    {
      Err(error)
    }

    function Extract(): T
      requires Ok?
    {
      value
    }
  }

  /** The seven fields of a parsed line, in the order the parser returns them. */
  datatype Record = Record(
    month: string,
    day: string,
    time: string,
    hostname: string,
    process: string,
    pid: string,
    message: string)

  // ---------------------------------------------------------------------
  // Month
  // ---------------------------------------------------------------------

  const MONTH_NAMES: seq<string> :=
    ["jan", "feb", "mar", "apr", "may", "jun", "jul", "aug", "sep", "oct", "nov", "dec"]

  /**
   * The month token is accepted when its lowercase form is one of the
   * twelve abbreviations; the token itself, with its own casing, is the
   * field value.
   */
  function ParseMonth(tok: string): (r: Result<string>)
    ensures r.Ok? ==> r.value == tok
    ensures r.Ok? ==> |tok| == 3 && forall k :: 0 <= k < 3 ==> IsAsciiLetter(tok[k])
    ensures r.Err? ==> r.error == InvalidMonth(tok)
  {
    if ToAsciiLowercase(tok) in MONTH_NAMES then
      MonthTokenLetters(tok);
      Ok(tok)
    else
      Err(InvalidMonth(tok))
  }

  lemma MonthTokenLetters(tok: string)
    requires ToAsciiLowercase(tok) in MONTH_NAMES
    ensures |tok| == 3 && forall k :: 0 <= k < 3 ==> IsAsciiLetter(tok[k])
  {
    var lower := ToAsciiLowercase(tok);
    assert forall k :: 0 <= k < |lower| ==> 'a' <= lower[k] <= 'z';
    forall k | 0 <= k < 3
      ensures IsAsciiLetter(tok[k])
    {
      assert lower[k] == AsciiLower(tok[k]);
    }
  }

  /** `tok` spells `name` (a lower-case ASCII word), each letter in either case. */
  predicate SpellsIgnoringCase(tok: string, name: string)
  {
    |tok| == |name| && forall k :: 0 <= k < |tok| ==> tok[k] == name[k] || tok[k] as int + 32 == name[k] as int
  }

  /** A month is accepted exactly when it spells one of the twelve names in any mix of cases. */
  lemma ParseMonthIgnoresCase(tok: string)
    ensures ParseMonth(tok).Ok? <==> exists i :: 0 <= i < 12 && SpellsIgnoringCase(tok, MONTH_NAMES[i])
  {
    if ParseMonth(tok).Ok? {
      var i :| 0 <= i < 12 && ToAsciiLowercase(tok) == MONTH_NAMES[i];
      assert SpellsIgnoringCase(tok, MONTH_NAMES[i]);
    }
    if i :| 0 <= i < 12 && SpellsIgnoringCase(tok, MONTH_NAMES[i]) {
      var name := MONTH_NAMES[i];
      assert forall k :: 0 <= k < |name| ==> 'a' <= name[k] <= 'z';
      assert ToAsciiLowercase(tok) == name;
    }
  }

  // ---------------------------------------------------------------------
  // Day
  // ---------------------------------------------------------------------

  /**
   * The day token must parse as a u32 in 1..31; the field value is the
   * canonical decimal form of that number.
   */
  function ParseDay(tok: string): (r: Result<string>)
    ensures r.Ok? <==> ParseU32(tok).Some? && 1 <= ParseU32(tok).value <= 31
    ensures r.Ok? ==> IsCanonicalDecimal(r.value) && ParseU32(r.value) == ParseU32(tok)
    ensures r.Err? ==> r.error == InvalidDay(tok)
  {
    match ParseU32(tok)
    case None => Err(InvalidDay(tok))
    case Some(day) =>
      if 0 < day <= 31 then
        ParseU32OfNatToString(day);
        Ok(NatToString(day))
      else
        Err(InvalidDay(tok))
  }

  /** The day field the parser produces is accepted again, unchanged. */
  lemma ParseDayIdempotent(tok: string)
    requires ParseDay(tok).Ok?
    ensures ParseDay(ParseDay(tok).value) == ParseDay(tok)
  {
  }

  // ---------------------------------------------------------------------
  // Time
  // ---------------------------------------------------------------------

  /**
   * The error of the first part that is not exactly two bytes long or is
   * not a u32, checked part by part in order, the length first.
   */
  ghost function FirstBadPart(parts: seq<string>, tok: string): Option<ParseError>
    decreases |parts|
  {
    if parts == [] then None
    else if ByteLength(parts[0]) != 2 then Some(InvalidTimeFormat(tok))
    else if ParseU32(parts[0]).None? then Some(TimeNotANumber(tok))
    else FirstBadPart(parts[1..], tok)
  }

  /** What the time check yields for a token. */
  ghost function TimeCheck(tok: string): Result<string>
  {
    var parts := SplitOn(tok, ':');
    if |parts| == 3 then
      match FirstBadPart(parts, tok)
      case Some(e) => Err(e)
      case None => Ok(parts[0] + ":" + parts[1] + ":" + parts[2])
    else
      Err(InvalidTime(tok))
  }

  /**
   * The time token is split on ':'; there must be exactly three parts and
   * each, in turn, must be two bytes long and parse as a u32.
   */
  method ParseTime(tok: string) returns (r: Result<string>)
    ensures r == TimeCheck(tok)
  {
    var parts := SplitOn(tok, ':');
    if |parts| == 3 {
      var i := 0;
      while i < |parts|
        invariant 0 <= i <= |parts|
        invariant FirstBadPart(parts[i..], tok) == FirstBadPart(parts, tok)
      {
        var part := parts[i];
        assert parts[i..][1..] == parts[i + 1..];
        if ByteLength(part) != 2 {
          return Err(InvalidTimeFormat(tok));
        }
        if ParseU32(part).None? {
          return Err(TimeNotANumber(tok));
        }
        i := i + 1;
      }
      return Ok(parts[0] + ":" + parts[1] + ":" + parts[2]);
    } else {
      return Err(InvalidTime(tok));
    }
  }

  /** A two-character u32: two digits, or `+` and a digit. */
  predicate IsTwoCharNumber(p: string)
  {
    |p| == 2 && (IsDigit(p[0]) || p[0] == '+') && IsDigit(p[1])
  }

  /** The accepted time tokens: `NN:NN:NN` with each `NN` a two-character u32. */
  predicate IsClockTime(tok: string)
  {
    && |tok| == 8
    && tok[2] == ':' && tok[5] == ':'
    && IsTwoCharNumber(tok[0..2]) && IsTwoCharNumber(tok[3..5]) && IsTwoCharNumber(tok[6..8])
  }

  /** A part passes both checks exactly when it is a two-character u32. */
  lemma TwoBytesAndNumber(p: string)
    ensures ByteLength(p) == 2 && ParseU32(p).Some? <==> IsTwoCharNumber(p)
  {
    if ParseU32(p).Some? {
      assert IsAscii(p);
    }
    if IsTwoCharNumber(p) {
      assert IsAscii(p);
      if p[0] == '+' {
        assert p[1..][..0] == [];
        assert DigitsValue(p[1..]) <= 9;
      } else {
        assert p[..1][..0] == [];
        assert DigitsValue(p[..1]) <= 9;
        assert DigitsValue(p) <= 99;
      }
    }
  }

  lemma {:induction false} NoBadPart(parts: seq<string>, tok: string)
    ensures FirstBadPart(parts, tok).None? <==>
      forall i :: 0 <= i < |parts| ==> ByteLength(parts[i]) == 2 && ParseU32(parts[i]).Some?
    decreases |parts|
  {
    if parts != [] {
      NoBadPart(parts[1..], tok);
      assert forall i :: 1 <= i < |parts| ==> parts[i] == parts[1..][i - 1];
    }
  }

  /**
   * The time check accepts exactly the `NN:NN:NN` tokens, and then the
   * field value is the token itself.
   */
  lemma TimeCheckAccepts(tok: string)
    ensures TimeCheck(tok).Ok? <==> IsClockTime(tok)
    ensures TimeCheck(tok).Ok? ==> TimeCheck(tok).value == tok
  {
    if TimeCheck(tok).Ok? {
      AcceptedTimeIsClockTime(tok);
    }
    if IsClockTime(tok) {
      ClockTimeAccepted(tok);
    }
  }

  lemma AcceptedTimeIsClockTime(tok: string)
    requires TimeCheck(tok).Ok?
    ensures IsClockTime(tok) && TimeCheck(tok).value == tok
  {
    var parts := SplitOn(tok, ':');
    NoBadPart(parts, tok);
    JoinOfSplit(tok, ':');
    TwoBytesAndNumber(parts[0]);
    TwoBytesAndNumber(parts[1]);
    TwoBytesAndNumber(parts[2]);
    JoinThree(parts, ":");
  }

  lemma ClockTimeAccepted(tok: string)
    requires IsClockTime(tok)
    ensures TimeCheck(tok) == Ok(tok)
  {
    var ps := [tok[0..2], tok[3..5], tok[6..8]];
    JoinThree(ps, ":");
    assert tok == ps[0] + ":" + ps[1] + ":" + ps[2];
    SplitOfJoin(ps, ':');
    NoBadPart(ps, tok);
    TwoBytesAndNumber(ps[0]);
    TwoBytesAndNumber(ps[1]);
    TwoBytesAndNumber(ps[2]);
  }

  lemma JoinThree(parts: seq<string>, sep: string)
    requires |parts| == 3
    ensures JoinWith(parts, sep) == parts[0] + sep + parts[1] + sep + parts[2]
  {
    assert JoinWith(parts[1..][1..], sep) == parts[2];
    assert JoinWith(parts[1..], sep) == parts[1] + sep + parts[2];
  }

  /**
   * Which of the three time errors is reported: `InvalidTime` exactly when
   * the token does not hold two ':'; otherwise the first bad part decides.
   */
  lemma TimeCheckErrors(tok: string)
    ensures TimeCheck(tok) == Err(InvalidTime(tok)) <==> multiset(tok)[':'] != 2
    ensures TimeCheck(tok).Err? ==>
      TimeCheck(tok).error in {InvalidTime(tok), InvalidTimeFormat(tok), TimeNotANumber(tok)}
  {
    SplitOnCount(tok, ':');
    var parts := SplitOn(tok, ':');
    if |parts| == 3 {
      FirstBadPartKinds(parts, tok);
    }
  }

  /**
   * The first part that fails decides the error: one that is not two
   * bytes long gives `InvalidTimeFormat`, a two-byte one that is not a u32
   * gives `TimeNotANumber`; the parts after it are not looked at.
   */
  lemma {:induction false} FirstBadPartAt(parts: seq<string>, tok: string, k: nat)
    requires k < |parts|
    requires forall j :: 0 <= j < k ==> ByteLength(parts[j]) == 2 && ParseU32(parts[j]).Some?
    requires !(ByteLength(parts[k]) == 2 && ParseU32(parts[k]).Some?)
    ensures FirstBadPart(parts, tok)
      == Some(if ByteLength(parts[k]) != 2 then InvalidTimeFormat(tok) else TimeNotANumber(tok))
    decreases k
  {
    if k > 0 {
      assert forall j :: 0 <= j < k - 1 ==> parts[1..][j] == parts[j + 1];
      FirstBadPartAt(parts[1..], tok, k - 1);
    }
  }

  /**
   * For a token with three ':'-separated parts whose part `k` is the first
   * to fail, the error is `InvalidTimeFormat` exactly when that part is not
   * two bytes long, and `TimeNotANumber` exactly when it is.
   */
  lemma TimeErrorKind(tok: string, k: nat)
    requires |SplitOn(tok, ':')| == 3 && k < 3
    requires forall j :: 0 <= j < k ==> ByteLength(SplitOn(tok, ':')[j]) == 2 && ParseU32(SplitOn(tok, ':')[j]).Some?
    requires !(ByteLength(SplitOn(tok, ':')[k]) == 2 && ParseU32(SplitOn(tok, ':')[k]).Some?)
    ensures ByteLength(SplitOn(tok, ':')[k]) != 2 <==> TimeCheck(tok) == Err(InvalidTimeFormat(tok))
    ensures ByteLength(SplitOn(tok, ':')[k]) == 2 <==> TimeCheck(tok) == Err(TimeNotANumber(tok))
  {
    FirstBadPartAt(SplitOn(tok, ':'), tok, k);
  }

  lemma {:induction false} FirstBadPartKinds(parts: seq<string>, tok: string)
    ensures FirstBadPart(parts, tok).Some? ==>
      FirstBadPart(parts, tok).value in {InvalidTimeFormat(tok), TimeNotANumber(tok)}
    decreases |parts|
  {
    if parts != [] {
      FirstBadPartKinds(parts[1..], tok);
    }
  }

  // ---------------------------------------------------------------------
  // Process name and pid
  // ---------------------------------------------------------------------

  /**
   * The process token must hold exactly one '['. The process name is what
   * precedes it; the pid is what follows it without a trailing "]:", or the
   * empty string when there is no such suffix.
   */
  function ParseProcessNameAndPid(tok: string): (r: Result<(string, string)>)
    ensures r.Ok? <==> multiset(tok)['['] == 1
    ensures r.Ok? ==> '[' !in r.value.0 && '[' !in r.value.1
    ensures r.Err? ==> r.error == InvalidProcess(tok)
  {
    SplitOnCount(tok, '[');
    var parts := SplitOn(tok, '[');
    if |parts| == 2 then
      var pid := match StripSuffix(parts[1], "]:")
        case Some(p) => p
        case None => "";
      assert pid <= parts[1];
      Ok((parts[0], pid))
    else
      Err(InvalidProcess(tok))
  }

  /** A token with a single '[' splits into the text before it and the text after it. */
  lemma SplitAtOnlyBracket(tok: string, i: nat)
    requires i < |tok| && tok[i] == '['
    requires multiset(tok)['['] == 1
    ensures SplitOn(tok, '[') == [tok[..i], tok[i + 1..]]
  {
    assert tok == tok[..i] + [tok[i]] + tok[i + 1..];
    assert multiset(tok) == multiset(tok[..i]) + multiset([tok[i]]) + multiset(tok[i + 1..]);
    var ps := [tok[..i], tok[i + 1..]];
    assert tok == JoinWith(ps, "[");
    SplitOfJoin(ps, '[');
  }

  /** The fields are the text before the '[' and the text after it, less "]:" (or nothing). */
  lemma ProcessFields(tok: string, i: nat)
    requires i < |tok| && tok[i] == '['
    requires multiset(tok)['['] == 1
    ensures ParseProcessNameAndPid(tok) == Ok((tok[..i],
      if |tok| >= i + 3 && tok[|tok| - 2..] == "]:" then tok[i + 1..|tok| - 2] else ""))
  {
    SplitAtOnlyBracket(tok, i);
    var after := tok[i + 1..];
    if |after| >= 2 {
      assert after[|after| - 2..] == tok[|tok| - 2..];
      if after[|after| - 2..] == "]:" {
        assert after[..|after| - 2] == tok[i + 1..|tok| - 2];
      }
    }
  }

  /** Writing a name and a pid as `name[pid]:` and parsing it gives them back. */
  lemma ProcessRoundTrip(name: string, pid: string)
    requires '[' !in name && '[' !in pid
    ensures ParseProcessNameAndPid(name + "[" + pid + "]:") == Ok((name, pid))
  {
    var tok := name + "[" + pid + "]:";
    var i := |name|;
    assert tok[..i] == name && tok[i] == '[' && tok[i + 1..] == pid + "]:";
    assert multiset(tok) == multiset(name) + multiset("[") + multiset(pid) + multiset("]:");
    ProcessFields(tok, i);
    assert tok[|tok| - 2..] == "]:";
    assert tok[i + 1..|tok| - 2] == pid;
  }

  /**
   * Without the "]:" suffix the pid is the empty string rather than an
   * error; the process name is still the text before the '['.
   */
  lemma PidWithoutSuffix(name: string, rest: string)
    requires '[' !in name && '[' !in rest
    requires |rest| < 2 || rest[|rest| - 2..] != "]:"
    ensures ParseProcessNameAndPid(name + "[" + rest) == Ok((name, ""))
  {
    var tok := name + "[" + rest;
    var i := |name|;
    assert tok[..i] == name && tok[i] == '[' && tok[i + 1..] == rest;
    assert multiset(tok) == multiset(name) + multiset("[") + multiset(rest);
    ProcessFields(tok, i);
    if |tok| >= i + 3 {
      assert tok[|tok| - 2..] == rest[|rest| - 2..];
    }
  }

  // ---------------------------------------------------------------------
  // Splitting a line into fields
  // ---------------------------------------------------------------------

  /** `iterator.next().ok_or(missing)`: the token at `i`, or the error for its absence. */
  function Next(parts: seq<string>, i: nat, missing: ParseError): (r: Result<string>)
    ensures r.Ok? <==> i < |parts|
    ensures r.Ok? ==> r.value == parts[i]
    ensures r.Err? ==> r.error == missing
  {
    if i < |parts| then Ok(parts[i]) else Err(missing)
  }

  /**
   * The fields the parser makes of a line's whitespace tokens, as a
   * decision list: the first missing token or failing check, in field
   * order, is the error.
   */
  ghost function ParseFields(parts: seq<string>): Result<Record>
  {
    if |parts| < 1 then Err(NoMonth)
    else if ParseMonth(parts[0]).Err? then Err(ParseMonth(parts[0]).error)
    else if |parts| < 2 then Err(NoDay)
    else if ParseDay(parts[1]).Err? then Err(ParseDay(parts[1]).error)
    else if |parts| < 3 then Err(NoTime)
    else if TimeCheck(parts[2]).Err? then Err(TimeCheck(parts[2]).error)
    else if |parts| < 4 then Err(NoHostname)
    else if |parts| < 5 then Err(NoProcess)
    else if ParseProcessNameAndPid(parts[4]).Err? then Err(ParseProcessNameAndPid(parts[4]).error)
    else
      var processAndPid := ParseProcessNameAndPid(parts[4]).value;
      Ok(Record(ParseMonth(parts[0]).value, ParseDay(parts[1]).value, TimeCheck(parts[2]).value,
        parts[3], processAndPid.0, processAndPid.1, JoinWith(parts[5..], " ")))
  }

  /** What the parser yields for a line. */
  ghost function LineFields(line: string): Result<Record>
  {
    ParseFields(Words(line))
  }

  /**
   * Walks the line's whitespace tokens with a cursor, validating month,
   * day, time, hostname and process in turn and stopping at the first
   * failure; the tokens left over are joined into the message.
   */
  method SplitIntoFields(line: string) returns (r: Result<Record>)
    ensures r == LineFields(line)
  {
    var parts := Words(line);
    var next := 0;
    var monthTok :- Next(parts, next, NoMonth);
    next := next + 1;
    var month :- ParseMonth(monthTok);
    var dayTok :- Next(parts, next, NoDay);
    next := next + 1;
    var day :- ParseDay(dayTok);
    var timeTok :- Next(parts, next, NoTime);
    next := next + 1;
    var time :- ParseTime(timeTok);
    var hostname :- Next(parts, next, NoHostname);
    next := next + 1;
    var processTok :- Next(parts, next, NoProcess);
    next := next + 1;
    var processAndPid :- ParseProcessNameAndPid(processTok);
    var message := JoinWith(parts[next..], " ");
    return Ok(Record(month, day, time, hostname, processAndPid.0, processAndPid.1, message));
  }

  /** The parser's entry point: the result of `SplitIntoFields`, unchanged. */
  method ParseRecord(line: string) returns (r: Result<Record>)
    ensures r == LineFields(line)
  {
    var fields :- SplitIntoFields(line);
    return Ok(fields);
  }

  // ---------------------------------------------------------------------
  // Properties of the parser
  // ---------------------------------------------------------------------

  /**
   * A line parses exactly when it has at least five tokens whose first,
   * second, third and fifth pass their checks; month, time and hostname
   * are then the tokens themselves, and the message is the tokens after
   * the fifth joined with single spaces.
   */
  lemma ParseFieldsAccepts(parts: seq<string>)
    ensures ParseFields(parts).Ok? <==>
      && |parts| >= 5
      && ParseMonth(parts[0]).Ok?
      && ParseDay(parts[1]).Ok?
      && TimeCheck(parts[2]).Ok?
      && ParseProcessNameAndPid(parts[4]).Ok?
    ensures ParseFields(parts).Ok? ==>
      var rec := ParseFields(parts).value;
      && rec.month == parts[0]
      && rec.day == ParseDay(parts[1]).value
      && rec.time == parts[2]
      && rec.hostname == parts[3]
      && (rec.process, rec.pid) == ParseProcessNameAndPid(parts[4]).value
      && rec.message == JoinWith(parts[5..], " ")
  {
    if |parts| >= 3 {
      TimeCheckAccepts(parts[2]);
    }
  }

  /** The check of field `k` (the hostname has none) rejects its token. */
  ghost predicate FieldFails(parts: seq<string>, k: nat)
    requires k < |parts|
  {
    || (k == 0 && ParseMonth(parts[0]).Err?)
    || (k == 1 && ParseDay(parts[1]).Err?)
    || (k == 2 && TimeCheck(parts[2]).Err?)
    || (k == 4 && ParseProcessNameAndPid(parts[4]).Err?)
  }

  /** Every field before `k` passes its check. */
  ghost predicate EarlierFieldsPass(parts: seq<string>, k: nat)
    requires k <= |parts|
  {
    && (k > 0 ==> ParseMonth(parts[0]).Ok?)
    && (k > 1 ==> ParseDay(parts[1]).Ok?)
    && (k > 2 ==> TimeCheck(parts[2]).Ok?)
  }

  /**
   * The fields are checked strictly in order and the first failure
   * decides: a missing field means the tokens ran out exactly there; an
   * invalid field's error is the one its own check returned for its token,
   * unchanged; and every earlier field passed.
   */
  lemma FirstFailureDecides(parts: seq<string>, e: ParseError)
    requires ParseFields(parts) == Err(e)
    ensures e.IsMissing() ==> |parts| == e.Field()
    ensures !e.IsMissing() ==> e.Field() < |parts| && e.token == parts[e.Field()] && FieldFails(parts, e.Field())
    ensures e.Field() <= |parts| && EarlierFieldsPass(parts, e.Field())
    ensures !e.IsMissing() && e.Field() == 0 ==> ParseMonth(parts[0]) == Err(e)
    ensures !e.IsMissing() && e.Field() == 1 ==> ParseDay(parts[1]) == Err(e)
    ensures !e.IsMissing() && e.Field() == 2 ==> TimeCheck(parts[2]) == Err(e)
    ensures !e.IsMissing() && e.Field() == 4 ==> ParseProcessNameAndPid(parts[4]) == Err(e)
  {
    if |parts| >= 3 {
      TimeCheckErrors(parts[2]);
    }
  }

  /** A failure at field `k` depends on the tokens up to `k` only. */
  lemma SameFailure(parts: seq<string>, us: seq<string>, k: nat)
    requires k < |parts| && k < |us|
    requires forall j :: 0 <= j <= k ==> us[j] == parts[j]
    requires EarlierFieldsPass(parts, k) && FieldFails(parts, k)
    ensures ParseFields(us) == ParseFields(parts)
  {
    assert us[0] == parts[0];
    if k >= 1 {
      assert us[1] == parts[1];
    }
    if k >= 2 {
      assert us[2] == parts[2];
    }
    if k == 4 {
      assert us[4] == parts[4];
    }
  }

  /**
   * No token after the failing one is looked at: any token sequence that
   * agrees up to and including the invalid field fails the same way.
   */
  lemma LaterTokensIgnored(parts: seq<string>, us: seq<string>, e: ParseError)
    requires ParseFields(parts) == Err(e) && !e.IsMissing()
    requires e.Field() < |parts| && e.Field() < |us|
    requires us[..e.Field() + 1] == parts[..e.Field() + 1]
    ensures ParseFields(us) == Err(e)
  {
    var k := e.Field();
    FirstFailureDecides(parts, e);
    forall j | 0 <= j <= k
      ensures us[j] == parts[j]
    {
      assert us[..k + 1][j] == parts[..k + 1][j];
    }
    SameFailure(parts, us, k);
  }

  /** A line with fewer than five tokens is always rejected. */
  lemma ShortLinesRejected(line: string)
    requires |Words(line)| < 5
    ensures LineFields(line).Err?
  {
    ParseFieldsAccepts(Words(line));
  }

  /** A run of whitespace separates tokens as a single whitespace character does. */
  lemma WhitespaceRunIgnored(a: string, c: char, d: char, b: string)
    requires IsWhitespace(c) && IsWhitespace(d)
    ensures LineFields(a + [c, d] + b) == LineFields(a + [c] + b)
  {
    WordsIgnoreWhitespaceRun(a, c, d, b);
  }

  /** Whitespace before a line does not change what it parses to. */
  lemma LeadingWhitespaceIgnored(line: string, c: char)
    requires IsWhitespace(c)
    ensures LineFields([c] + line) == LineFields(line)
  {
    WordsIgnoreLeadingWhitespace(line, c);
  }

  /** Whitespace after a line, such as its newline, does not change what it parses to. */
  lemma TrailingWhitespaceIgnored(line: string, c: char)
    requires IsWhitespace(c)
    ensures LineFields(line + [c]) == LineFields(line)
  {
    WordsIgnoreTrailingWhitespace(line, c);
  }

  /**
   * The message holds the tokens after the fifth, in order and nothing
   * else; it is empty exactly when the line has five tokens, and its only
   * whitespace is single spaces between tokens.
   */
  lemma MessageIsRemainingTokens(line: string)
    requires LineFields(line).Ok?
    ensures var m := LineFields(line).value.message;
      && Words(m) == Words(line)[5..]
      && (m == [] <==> |Words(line)| == 5)
      && SingleSpaced(m)
  {
    var parts := Words(line);
    ParseFieldsAccepts(parts);
    WordsOfJoin(parts[5..]);
    JoinedWordsSingleSpaced(parts[5..]);
  }

  // ---------------------------------------------------------------------
  // Round trip: printing a record and parsing it back
  // ---------------------------------------------------------------------

  /** The records the parser can produce. */
  ghost predicate WellFormed(rec: Record)
  {
    && ParseMonth(rec.month) == Ok(rec.month)
    && ParseDay(rec.day) == Ok(rec.day)
    && TimeCheck(rec.time) == Ok(rec.time)
    && IsWord(rec.hostname)
    && NoWhitespace(rec.process) && '[' !in rec.process
    && NoWhitespace(rec.pid) && '[' !in rec.pid
    && JoinWith(Words(rec.message), " ") == rec.message
  }

  /** The tokens of a record written back as a log line. */
  ghost function FormatTokens(rec: Record): seq<string>
  {
    [rec.month, rec.day, rec.time, rec.hostname, rec.process + "[" + rec.pid + "]:"] + Words(rec.message)
  }

  /** A record written back as a log line: `Month Day HH:MM:SS host process[pid]: message`. */
  ghost function Format(rec: Record): string
  {
    JoinWith(FormatTokens(rec), " ")
  }

  lemma NoWhitespaceConcat(a: string, b: string)
    requires NoWhitespace(a) && NoWhitespace(b)
    ensures NoWhitespace(a + b)
  {
    assert forall i :: |a| <= i < |a + b| ==> (a + b)[i] == b[i - |a|];
  }

  lemma FormatTokensAreWords(rec: Record)
    requires WellFormed(rec)
    ensures forall i :: 0 <= i < |FormatTokens(rec)| ==> IsWord(FormatTokens(rec)[i])
  {
    var head := [rec.month, rec.day, rec.time, rec.hostname, rec.process + "[" + rec.pid + "]:"];
    MonthIsWord(rec.month);
    DayIsWord(rec.day);
    TimeIsWord(rec.time);
    ProcessTokenIsWord(rec.process, rec.pid);
    assert forall i :: 0 <= i < |head| ==> IsWord(head[i]);
    ConcatWords(head, Words(rec.message));
  }

  lemma ProcessTokenIsWord(process: string, pid: string)
    requires NoWhitespace(process) && NoWhitespace(pid)
    ensures IsWord(process + "[" + pid + "]:")
  {
    NoWhitespaceConcat(process, "[");
    NoWhitespaceConcat(process + "[", pid);
    NoWhitespaceConcat(process + "[" + pid, "]:");
  }

  lemma MonthIsWord(tok: string)
    requires ParseMonth(tok).Ok?
    ensures IsWord(tok)
  {
    assert forall k :: 0 <= k < |tok| ==> IsAsciiLetter(tok[k]);
  }

  lemma DayIsWord(tok: string)
    requires IsCanonicalDecimal(tok)
    ensures IsWord(tok)
  {
    assert forall k :: 0 <= k < |tok| ==> IsDigit(tok[k]);
  }

  lemma TimeIsWord(tok: string)
    requires TimeCheck(tok).Ok?
    ensures IsWord(tok)
  {
    TimeCheckAccepts(tok);
    assert forall k :: 0 <= k < 8 ==> IsDigit(tok[k]) || tok[k] == '+' || tok[k] == ':' by {
      assert tok[0..2][0] == tok[0] && tok[0..2][1] == tok[1];
      assert tok[3..5][0] == tok[3] && tok[3..5][1] == tok[4];
      assert tok[6..8][0] == tok[6] && tok[6..8][1] == tok[7];
    }
  }

  /** Parsing the printed form of a well-formed record gives the record back. */
  lemma FormatThenParse(rec: Record)
    requires WellFormed(rec)
    ensures LineFields(Format(rec)) == Ok(rec)
  {
    FormatTokensAreWords(rec);
    WordsOfJoin(FormatTokens(rec));
    ParseFormatTokens(rec);
  }

  /** The printed record's tokens parse back to the record. */
  lemma ParseFormatTokens(rec: Record)
    requires WellFormed(rec)
    ensures ParseFields(FormatTokens(rec)) == Ok(rec)
  {
    var ts := FormatTokens(rec);
    ProcessRoundTrip(rec.process, rec.pid);
    assert ts[5..] == Words(rec.message);
    ParseFieldsAccepts(ts);
  }

  lemma NoWhitespaceSlice(s: string, i: nat, j: nat)
    requires NoWhitespace(s) && i <= j <= |s|
    ensures NoWhitespace(s[i..j])
  {
    assert forall k :: 0 <= k < j - i ==> s[i..j][k] == s[i + k];
  }

  /** Every record the parser produces is well formed. */
  lemma ParsedIsWellFormed(line: string)
    requires LineFields(line).Ok?
    ensures WellFormed(LineFields(line).value)
  {
    var parts := Words(line);
    var rec := LineFields(line).value;
    ParseFieldsAccepts(parts);
    TimeCheckAccepts(parts[2]);
    ParseDayIdempotent(parts[1]);
    var tok := parts[4];
    var i :| 0 <= i < |tok| && tok[i] == '[';
    ProcessFields(tok, i);
    NoWhitespaceSlice(tok, 0, i);
    if |tok| >= i + 3 && tok[|tok| - 2..] == "]:" {
      NoWhitespaceSlice(tok, i + 1, |tok| - 2);
    }
    WordsOfJoin(parts[5..]);
  }
}
