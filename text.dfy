/**
 * The parts of Rust's `char`, `str` and `u32` behaviour that the log-line
 * parser relies on: whitespace splitting (`str::split_whitespace`),
 * splitting on one character (`str::split`), joining (`join`), suffix
 * stripping (`str::strip_suffix`), lowercasing, the UTF-8 byte length
 * (`str::len`), `str::parse::<u32>` and `u32::to_string`.
 */
module Text {

  datatype Option<+T> = None | Some(value: T)

  // ---------------------------------------------------------------------
  // Whitespace and split_whitespace
  // ---------------------------------------------------------------------

  /** `char::is_whitespace`: the characters with the Unicode White_Space property. */
  predicate IsWhitespace(c: char)
  {
    || '\t' <= c <= '\r'
    || c == ' '
    || c == '\U{0085}'
    || c == '\U{00A0}'
    || c == '\U{1680}'
    || '\U{2000}' <= c <= '\U{200A}'
    || c == '\U{2028}'
    || c == '\U{2029}'
    || c == '\U{202F}'
    || c == '\U{205F}'
    || c == '\U{3000}'
  }

  predicate NoWhitespace(s: string)
  {
    forall i :: 0 <= i < |s| ==> !IsWhitespace(s[i])
  }

  /** What `split_whitespace` can yield: a non-empty string without whitespace. */
  predicate IsWord(w: string)
  {
    w != [] && NoWhitespace(w)
  }

  /** The length of the run of non-whitespace characters that starts `s`. */
  function WordLength(s: string): (n: nat)
    ensures n <= |s|
    ensures forall i :: 0 <= i < n ==> !IsWhitespace(s[i])
    ensures n < |s| ==> IsWhitespace(s[n])
  {
    if s == [] || IsWhitespace(s[0]) then 0 else 1 + WordLength(s[1..])
  }

  /** `str::split_whitespace`: the maximal runs of non-whitespace characters, in order. */
  function Words(s: string): (ws: seq<string>)
    ensures forall i :: 0 <= i < |ws| ==> IsWord(ws[i])
    decreases |s|
  {
    if s == [] then []
    else if IsWhitespace(s[0]) then Words(s[1..])
    else
      var n := WordLength(s);
      [s[..n]] + Words(s[n..])
  }

  lemma {:induction false} WordLengthExtend(a: string, x: string)
    requires WordLength(a) < |a| || x == [] || IsWhitespace(x[0])
    ensures WordLength(a + x) == WordLength(a)
    decreases |a|
  {
    if a == [] {
      assert a + x == x;
    } else if !IsWhitespace(a[0]) {
      assert (a + x)[1..] == a[1..] + x;
      WordLengthExtend(a[1..], x);
    }
  }

  /** A word followed by whitespace (or by nothing) is split off whole. */
  lemma WordsOfWordThen(w: string, rest: string)
    requires IsWord(w)
    requires rest == [] || IsWhitespace(rest[0])
    ensures Words(w + rest) == [w] + Words(rest)
  {
    var s := w + rest;
    assert WordLength(w) == |w|;
    WordLengthExtend(w, rest);
    assert s[0] == w[0];
    assert s[..|w|] == w;
    assert s[|w|..] == rest;
  }

  /**
   * A whitespace character separates: what lies on either side of it is
   * split independently. With `Words([]) == []` and `Words(w) == [w]` for
   * a word `w`, this determines `Words` completely; in particular a run of
   * whitespace is one delimiter and leading or trailing whitespace yields
   * no empty token.
   */
  lemma {:induction false} WordsSplitAtWhitespace(a: string, c: char, b: string)
    requires IsWhitespace(c)
    ensures Words(a + [c] + b) == Words(a) + Words(b)
    decreases |a|, 1
  {
    var s := a + [c] + b;
    if a == [] {
      assert s[1..] == b;
    } else if IsWhitespace(a[0]) {
      assert s[1..] == a[1..] + [c] + b;
      WordsSplitAtWhitespace(a[1..], c, b);
    } else {
      WordsSplitAfterWord(a, c, b);
    }
  }

  /** The case of `WordsSplitAtWhitespace` where `a` starts with a word. */
  lemma {:induction false} WordsSplitAfterWord(a: string, c: char, b: string)
    requires IsWhitespace(c) && a != [] && !IsWhitespace(a[0])
    ensures Words(a + [c] + b) == Words(a) + Words(b)
    decreases |a|, 0
  {
    var m := WordLength(a);
    if m == |a| {
      WordsSplitAfterWholeWord(a, c, b);
    } else {
      var s := a + [c] + b;
      assert s == a + ([c] + b);
      WordLengthExtend(a, [c] + b);
      assert s[..m] == a[..m];
      assert s[m..] == a[m..] + [c] + b;
      WordsSplitAtWhitespace(a[m..], c, b);
    }
  }

  /** Every token of `head + tail` is a word when those of both halves are. */
  lemma ConcatWords(head: seq<string>, tail: seq<string>)
    requires forall i :: 0 <= i < |head| ==> IsWord(head[i])
    requires forall i :: 0 <= i < |tail| ==> IsWord(tail[i])
    ensures forall i :: 0 <= i < |head + tail| ==> IsWord((head + tail)[i])
  {
    forall i | 0 <= i < |head + tail|
      ensures IsWord((head + tail)[i])
    {
      if i >= |head| {
        assert (head + tail)[i] == tail[i - |head|];
      }
    }
  }

  /** The case of `WordsSplitAfterWord` where all of `a` is one word. */
  lemma WordsSplitAfterWholeWord(a: string, c: char, b: string)
    requires IsWhitespace(c) && IsWord(a)
    ensures Words(a + [c] + b) == Words(a) + Words(b)
  {
    assert a + [c] + b == a + ([c] + b);
    WordsOfWordThen(a, [c] + b);
    assert ([c] + b)[1..] == b;
    WordsOfWordThen(a, []);
    assert a + [] == a;
  }

  /** Printable ASCII other than the space: the characters of the log's fixed fields. */
  predicate IsVisibleAscii(s: string)
  {
    forall i :: 0 <= i < |s| ==> '!' <= s[i] <= '~'
  }

  lemma VisibleAsciiIsWord(s: string)
    requires s != [] && IsVisibleAscii(s)
    ensures IsWord(s)
  {
  }

  /** Trailing whitespace yields no token. */
  lemma WordsIgnoreTrailingWhitespace(s: string, c: char)
    requires IsWhitespace(c)
    ensures Words(s + [c]) == Words(s)
  {
    WordsSplitAtWhitespace(s, c, []);
    assert s + [c] + [] == s + [c];
    assert Words([]) == [];
  }

  /** Leading whitespace yields no token. */
  lemma WordsIgnoreLeadingWhitespace(s: string, c: char)
    requires IsWhitespace(c)
    ensures Words([c] + s) == Words(s)
  {
    WordsSplitAtWhitespace([], c, s);
    assert [] + [c] + s == [c] + s;
  }

  /** Two whitespace characters in a row delimit as one does. */
  lemma WordsIgnoreWhitespaceRun(a: string, c: char, d: char, b: string)
    requires IsWhitespace(c) && IsWhitespace(d)
    ensures Words(a + [c, d] + b) == Words(a + [c] + b)
  {
    WordsSplitAtWhitespace(a, c, [d] + b);
    assert a + [c, d] + b == a + [c] + ([d] + b);
    WordsIgnoreLeadingWhitespace(b, d);
    WordsSplitAtWhitespace(a, c, b);
  }

  // ---------------------------------------------------------------------
  // join
  // ---------------------------------------------------------------------

  /** `[String]::join(sep)`: the pieces with `sep` between neighbours. */
  function JoinWith(ts: seq<string>, sep: string): string
    decreases |ts|
  {
    if |ts| == 0 then []
    else if |ts| == 1 then ts[0]
    else ts[0] + sep + JoinWith(ts[1..], sep)
  }

  /** Joining words with single spaces and splitting on whitespace gives the words back. */
  lemma {:induction false} WordsOfJoin(ts: seq<string>)
    requires forall i :: 0 <= i < |ts| ==> IsWord(ts[i])
    ensures Words(JoinWith(ts, " ")) == ts
    decreases |ts|
  {
    if |ts| == 1 {
      WordsOfWordThen(ts[0], []);
      assert ts[0] + [] == ts[0];
    } else if |ts| > 1 {
      var rest := JoinWith(ts[1..], " ");
      WordsOfJoin(ts[1..]);
      assert JoinWith(ts, " ") == ts[0] + (" " + rest);
      WordsOfWordThen(ts[0], " " + rest);
      assert (" " + rest)[1..] == rest;
      assert ts == [ts[0]] + ts[1..];
    }
  }

  /**
   * The only whitespace in a text is single spaces, each strictly inside
   * the text and between two non-whitespace characters.
   */
  predicate SingleSpaced(m: string)
  {
    forall i :: 0 <= i < |m| && IsWhitespace(m[i]) ==>
      m[i] == ' ' && 0 < i < |m| - 1 && !IsWhitespace(m[i - 1]) && !IsWhitespace(m[i + 1])
  }

  /** Words joined with single spaces are single-spaced, and empty exactly when there are none. */
  lemma {:induction false} JoinedWordsSingleSpaced(ts: seq<string>)
    requires forall i :: 0 <= i < |ts| ==> IsWord(ts[i])
    ensures JoinWith(ts, " ") == [] <==> ts == []
    ensures SingleSpaced(JoinWith(ts, " "))
    decreases |ts|
  {
    if |ts| > 1 {
      var w := ts[0];
      var rest := JoinWith(ts[1..], " ");
      JoinedWordsSingleSpaced(ts[1..]);
      var m := JoinWith(ts, " ");
      assert m == w + " " + rest;
      assert rest != [];
      assert !IsWhitespace(rest[0]);
      forall i | 0 <= i < |m| && IsWhitespace(m[i])
        ensures m[i] == ' ' && 0 < i < |m| - 1 && !IsWhitespace(m[i - 1]) && !IsWhitespace(m[i + 1])
      {
        if i < |w| {
          assert false;
        } else if i > |w| {
          var j := i - |w| - 1;
          assert m[i] == rest[j];
          assert IsWhitespace(rest[j]);
          assert m[i - 1] == rest[j - 1] && m[i + 1] == rest[j + 1];
        } else {
          assert m[i - 1] == w[|w| - 1];
          assert m[i + 1] == rest[0];
        }
      }
    }
  }

  // ---------------------------------------------------------------------
  // split on one character
  // ---------------------------------------------------------------------

  /** `str::split(c)`: the pieces between occurrences of `c`; always at least one piece. */
  function SplitOn(s: string, c: char): (parts: seq<string>)
    ensures |parts| >= 1
    ensures forall i :: 0 <= i < |parts| ==> c !in parts[i]
    decreases |s|
  {
    if s == [] then [[]]
    else
      var rest := SplitOn(s[1..], c);
      if s[0] == c then [[]] + rest
      else [[s[0]] + rest[0]] + rest[1..]
  }

  /** There is one more piece than there are separators. */
  lemma {:induction false} SplitOnCount(s: string, c: char)
    ensures |SplitOn(s, c)| == multiset(s)[c] + 1
    decreases |s|
  {
    if s != [] {
      assert s == [s[0]] + s[1..];
      SplitOnCount(s[1..], c);
    }
  }

  /** Joining the pieces with the separator restores the text. */
  lemma {:induction false} JoinOfSplit(s: string, c: char)
    ensures JoinWith(SplitOn(s, c), [c]) == s
    decreases |s|
  {
    if s != [] {
      var rest := SplitOn(s[1..], c);
      JoinOfSplit(s[1..], c);
      var parts := SplitOn(s, c);
      if s[0] == c {
        assert parts[1..] == rest;
      } else {
        assert parts[1..] == rest[1..];
        if |rest| == 1 {
          assert JoinWith(parts, [c]) == [s[0]] + rest[0];
        } else {
          assert JoinWith(parts, [c]) == [s[0]] + (rest[0] + [c] + JoinWith(rest[1..], [c]));
        }
      }
    }
  }

  lemma {:induction false} SplitOnPrefix(p: string, x: string, c: char)
    requires c !in p
    ensures SplitOn(p + x, c) == [p + SplitOn(x, c)[0]] + SplitOn(x, c)[1..]
    decreases |p|
  {
    if p == [] {
      var parts := SplitOn(x, c);
      assert p + x == x && p + parts[0] == parts[0];
      assert parts == [parts[0]] + parts[1..];
    } else {
      assert (p + x)[0] == p[0];
      assert (p + x)[1..] == p[1..] + x;
      SplitOnPrefix(p[1..], x, c);
      assert [p[0]] + (p[1..] + SplitOn(x, c)[0]) == p + SplitOn(x, c)[0];
    }
  }

  /** Splitting a join of separator-free pieces gives the pieces back. */
  lemma {:induction false} SplitOfJoin(parts: seq<string>, c: char)
    requires |parts| >= 1
    requires forall i :: 0 <= i < |parts| ==> c !in parts[i]
    ensures SplitOn(JoinWith(parts, [c]), c) == parts
    decreases |parts|
  {
    if |parts| == 1 {
      SplitOnPrefix(parts[0], [], c);
      assert parts[0] + [] == parts[0];
    } else {
      var tail := JoinWith(parts[1..], [c]);
      SplitOfJoin(parts[1..], c);
      assert JoinWith(parts, [c]) == parts[0] + ([c] + tail);
      SplitOnPrefix(parts[0], [c] + tail, c);
      assert ([c] + tail)[1..] == tail;
      assert SplitOn([c] + tail, c) == [[]] + parts[1..];
      assert parts[0] + [] == parts[0];
      assert parts == [parts[0]] + parts[1..];
    }
  }

  // ---------------------------------------------------------------------
  // strip_suffix
  // ---------------------------------------------------------------------

  /** `str::strip_suffix`: the text without `suffix`, when it ends with it. */
  function StripSuffix(s: string, suffix: string): (r: Option<string>)
    ensures r.Some? ==> r.value + suffix == s
    ensures r.None? ==> |s| < |suffix| || s[|s| - |suffix|..] != suffix
  {
    if |suffix| <= |s| && s[|s| - |suffix|..] == suffix then
      assert s == s[..|s| - |suffix|] + s[|s| - |suffix|..];
      Some(s[..|s| - |suffix|])
    else None
  }

  // ---------------------------------------------------------------------
  // Lowercasing
  // ---------------------------------------------------------------------

  predicate IsAsciiLetter(c: char)
  {
    'a' <= c <= 'z' || 'A' <= c <= 'Z'
  }

  function AsciiLower(c: char): char
  {
    if 'A' <= c <= 'Z' then (c as int + 32) as char else c
  }

  /**
   * `str::to_lowercase`, restricted to ASCII: upper-case ASCII letters are
   * lowered and every other character is kept.
   */
  function ToAsciiLowercase(s: string): (r: string)
    ensures |r| == |s|
    ensures forall i :: 0 <= i < |r| ==> !('A' <= r[i] <= 'Z')
    ensures forall i :: 0 <= i < |r| ==> r[i] == s[i] || ('A' <= s[i] <= 'Z' && r[i] as int == s[i] as int + 32)
  {
    seq(|s|, i requires 0 <= i < |s| => AsciiLower(s[i]))
  }

  // ---------------------------------------------------------------------
  // UTF-8 length
  // ---------------------------------------------------------------------

  /** The number of bytes UTF-8 uses for `c`. */
  function Utf8Width(c: char): nat
  {
    if c as int < 0x80 then 1
    else if c as int < 0x800 then 2
    else if c as int < 0x1_0000 then 3
    else 4
  }

  predicate IsAscii(s: string)
  {
    forall i :: 0 <= i < |s| ==> s[i] as int < 0x80
  }

  /**
   * `str::len`: the length of the UTF-8 encoding, in bytes. Each character
   * takes one to four bytes, and exactly one when the text is ASCII.
   */
  function ByteLength(s: string): (n: nat)
    ensures |s| <= n <= 4 * |s|
    ensures n == |s| <==> IsAscii(s)
    decreases |s|
  {
    if s == [] then 0
    else
      assert forall i :: 1 <= i < |s| ==> s[i] == s[1..][i - 1];
      Utf8Width(s[0]) + ByteLength(s[1..])
  }

  // ---------------------------------------------------------------------
  // Decimal numbers
  // ---------------------------------------------------------------------

  const U32_MAX: nat := 0xFFFF_FFFF

  predicate IsDigit(c: char)
  {
    '0' <= c <= '9'
  }

  predicate AllDigits(s: string)
  {
    forall i :: 0 <= i < |s| ==> IsDigit(s[i])
  }

  function DigitValue(c: char): nat
    requires IsDigit(c)
  {
    c as int - '0' as int
  }

  function DigitChar(d: nat): (c: char)
    requires d < 10
    ensures IsDigit(c) && DigitValue(c) == d
  {
    ('0' as int + d) as char
  }

  /** The value of a string of decimal digits, most significant first. */
  function DigitsValue(s: string): nat
    requires AllDigits(s)
    decreases |s|
  {
    if s == [] then 0 else 10 * DigitsValue(s[..|s| - 1]) + DigitValue(s[|s| - 1])
  }

  /**
   * `str::parse::<u32>`: an optional `+` and then one or more ASCII digits
   * whose value fits in 32 bits. `""`, `"+"`, a `-` sign, any other
   * character and an overflowing value are errors.
   */
  function ParseU32(s: string): (r: Option<nat>)
    ensures r.Some? ==> r.value <= U32_MAX
    ensures r.Some? ==> s != [] && IsDigit(s[|s| - 1])
    ensures r.Some? ==> forall i :: 0 <= i < |s| ==> IsDigit(s[i]) || (i == 0 && s[i] == '+')
  {
    if s == [] then None
    else
      var digits := if s[0] == '+' then s[1..] else s;
      if digits != [] && AllDigits(digits) && DigitsValue(digits) <= U32_MAX then
        assert s[|s| - 1] == digits[|digits| - 1];
        Some(DigitsValue(digits))
      else None
  }

  /** Decimal text in canonical form: digits only, and no leading zero unless it is "0". */
  predicate IsCanonicalDecimal(s: string)
  {
    s != [] && AllDigits(s) && (|s| > 1 ==> s[0] != '0')
  }

  /** `u32::to_string`: the canonical decimal form of `n`. */
  function NatToString(n: nat): (s: string)
    ensures IsCanonicalDecimal(s) && DigitsValue(s) == n
    decreases n
  {
    if n < 10 then [DigitChar(n)]
    else
      var front := NatToString(n / 10);
      var s := front + [DigitChar(n % 10)];
      assert s[..|s| - 1] == front;
      assert s[0] == front[0];
      s
  }

  /** Printing a `u32` and parsing the text back gives the number. */
  lemma ParseU32OfNatToString(n: nat)
    requires n <= U32_MAX
    ensures ParseU32(NatToString(n)) == Some(n)
  {
    var s := NatToString(n);
    assert s[0] != '+';
  }

  lemma {:induction false} DigitsValuePositive(s: string)
    requires IsCanonicalDecimal(s) && s[0] != '0'
    ensures DigitsValue(s) >= 1
    decreases |s|
  {
    if |s| > 1 {
      var front := s[..|s| - 1];
      assert front[0] == s[0];
      DigitsValuePositive(front);
    }
  }

  /** A canonical decimal text is the printed form of its value. */
  lemma {:induction false} NatToStringOfCanonical(s: string)
    requires IsCanonicalDecimal(s)
    ensures NatToString(DigitsValue(s)) == s
    decreases |s|
  {
    var d := DigitValue(s[|s| - 1]);
    if |s| == 1 {
      assert DigitsValue(s) == d;
      assert DigitChar(d) == s[0];
    } else {
      var front := s[..|s| - 1];
      assert front[0] == s[0];
      DigitsValuePositive(front);
      NatToStringOfCanonical(front);
      var v := DigitsValue(s);
      assert v == 10 * DigitsValue(front) + d;
      assert v / 10 == DigitsValue(front) && v % 10 == d;
      assert DigitChar(d) == s[|s| - 1];
      assert s == front + [s[|s| - 1]];
    }
  }

  /** Text made only of '0' characters, possibly none. */
  predicate AllZeros(z: string)
  {
    forall i :: 0 <= i < |z| ==> z[i] == '0'
  }

  /** A leading zero does not change the value of a digit string. */
  lemma {:induction false} LeadingZeroValue(t: string)
    requires AllDigits(t)
    ensures AllDigits("0" + t) && DigitsValue("0" + t) == DigitsValue(t)
    decreases |t|
  {
    var s := "0" + t;
    assert forall i :: 1 <= i < |s| ==> s[i] == t[i - 1];
    if t == [] {
      assert s[..|s| - 1] == [];
    } else {
      assert s[..|s| - 1] == "0" + t[..|t| - 1];
      LeadingZeroValue(t[..|t| - 1]);
    }
  }

  /** Any run of leading zeros does not change the value of a digit string. */
  lemma {:induction false} ZerosPrefixValue(z: string, t: string)
    requires AllZeros(z) && AllDigits(t)
    ensures AllDigits(z + t) && DigitsValue(z + t) == DigitsValue(t)
    decreases |z|
  {
    if z == [] {
      assert z + t == t;
    } else {
      ZerosPrefixValue(z[1..], t);
      assert z + t == "0" + (z[1..] + t);
      LeadingZeroValue(z[1..] + t);
    }
  }

  /** The number of leading zeros of a digit string that are not its last character. */
  function LeadingZeroCount(d: string): (k: nat)
    ensures k <= |d| && (d != [] ==> k < |d|)
    ensures AllZeros(d[..k])
    decreases |d|
  {
    if |d| > 1 && d[0] == '0' then
      var k := 1 + LeadingZeroCount(d[1..]);
      assert d[..k] == [d[0]] + d[1..][..k - 1];
      k
    else 0
  }

  /** Digit text is its leading zeros followed by the canonical form of its value. */
  lemma {:induction false} SplitLeadingZeros(d: string)
    requires d != [] && AllDigits(d)
    ensures d[LeadingZeroCount(d)..] == NatToString(DigitsValue(d))
    decreases |d|
  {
    if |d| == 1 || d[0] != '0' {
      NatToStringOfCanonical(d);
    } else {
      var t := d[1..];
      SplitLeadingZeros(t);
      assert d == "0" + t;
      LeadingZeroValue(t);
      assert d[LeadingZeroCount(d)..] == t[LeadingZeroCount(t)..];
    }
  }

  /** An accepted text is digits, possibly after a `+`, whose value is the result. */
  lemma ParsedU32Digits(s: string, n: nat)
    requires ParseU32(s) == Some(n)
    ensures var digits := if s[0] == '+' then s[1..] else s;
      digits != [] && AllDigits(digits) && DigitsValue(digits) == n
  {
  }

  /** Digit text with an optional `+` in front is spelled as sign, zeros and canonical decimal. */
  lemma SpelledWithSign(s: string, digits: string, n: nat)
    requires digits != [] && AllDigits(digits) && DigitsValue(digits) == n
    requires s == digits || s == "+" + digits
    ensures exists z :: AllZeros(z) && (s == z + NatToString(n) || s == "+" + z + NatToString(n))
  {
    SplitLeadingZeros(digits);
    var k := LeadingZeroCount(digits);
    var z := digits[..k];
    var t := NatToString(n);
    assert digits == z + digits[k..];
    assert AllZeros(z) && digits == z + t;
    assert "+" + (z + t) == "+" + z + t;
  }

  /** What `parse::<u32>` accepts is an optional `+`, leading zeros and the canonical decimal of the value. */
  lemma ParsedU32Spelled(s: string, n: nat)
    requires ParseU32(s) == Some(n)
    ensures exists z :: AllZeros(z) && (s == z + NatToString(n) || s == "+" + z + NatToString(n))
  {
    ParsedU32Digits(s, n);
    var digits := if s[0] == '+' then s[1..] else s;
    if s[0] == '+' {
      assert s == "+" + digits;
    }
    SpelledWithSign(s, digits, n);
  }

  /** An optional `+`, leading zeros and the canonical decimal of a u32 parse to that number. */
  lemma SpelledU32Parsed(s: string, n: nat, z: string)
    requires n <= U32_MAX && AllZeros(z)
    requires s == z + NatToString(n) || s == "+" + z + NatToString(n)
    ensures ParseU32(s) == Some(n)
  {
    var t := NatToString(n);
    ZerosPrefixValue(z, t);
    if s == "+" + z + t {
      assert s[1..] == z + t;
    } else {
      assert s == z + t;
      assert IsDigit(s[0]);
    }
  }

  /**
   * `parse::<u32>` accepts exactly an optional `+`, any number of leading
   * zeros and then the canonical decimal of a number that fits in 32
   * bits, and it yields that number.
   */
  lemma ParseU32Spelling(s: string, n: nat)
    ensures ParseU32(s) == Some(n) <==>
      n <= U32_MAX && exists z :: AllZeros(z) && (s == z + NatToString(n) || s == "+" + z + NatToString(n))
  {
    if ParseU32(s) == Some(n) {
      ParsedU32Spelled(s, n);
    }
    if n <= U32_MAX && exists z :: AllZeros(z) && (s == z + NatToString(n) || s == "+" + z + NatToString(n)) {
      var z :| AllZeros(z) && (s == z + NatToString(n) || s == "+" + z + NatToString(n));
      SpelledU32Parsed(s, n, z);
    }
  }
}
