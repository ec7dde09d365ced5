/** Text as the runtime sees it: white space, lines, and files of one record a line. */
module Text {
  import opened Sequences

  predicate IsSpace(c: char) {
    c in {'\t', '\n', '\U{0B}', '\U{0C}', '\r', '\U{1C}', '\U{1D}', '\U{1E}', '\U{1F}', ' ', '\U{85}', '\U{A0}',
          '\U{1680}', '\U{2028}', '\U{2029}', '\U{202F}', '\U{205F}', '\U{3000}'}
    || '\U{2000}' <= c <= '\U{200A}'
  }

  /** Nothing is left after stripping white space. */
  predicate IsBlank(s: string) {
    forall i :: 0 <= i < |s| ==> IsSpace(s[i])
  }

  /** The white space of `str.strip`, by code point. */
  lemma SpacesAre(c: char)
    ensures IsSpace(c) <==> var n := c as int;
              || 9 <= n <= 13 || 28 <= n <= 32 || n == 133 || n == 160 || n == 5_760 || 8_192 <= n <= 8_202
              || n == 8_232 || n == 8_233 || n == 8_239 || n == 8_287 || n == 12_288
  {
  }

  // ----------------------------------------------------------------------------------- order

  /** Strings by code point. */
  predicate TextLe(s: string, t: string) {
    s == "" || (t != "" && (s[0] < t[0] || (s[0] == t[0] && TextLe(s[1..], t[1..]))))
  }

  lemma {:induction false} TextLeIsTotal(s: string, t: string)
    ensures TextLe(s, t) || TextLe(t, s)
    ensures TextLe(s, t) && TextLe(t, s) ==> s == t
  {
    if s != "" && t != "" && s[0] == t[0] {
      TextLeIsTotal(s[1..], t[1..]);
      assert s == [s[0]] + s[1..] && t == [t[0]] + t[1..];
    }
  }

  lemma {:induction false} TextLeIsTransitive(s: string, t: string, u: string)
    requires TextLe(s, t) && TextLe(t, u)
    ensures TextLe(s, u)
  {
    if s != "" && s[0] == t[0] == u[0] {
      TextLeIsTransitive(s[1..], t[1..], u[1..]);
    }
  }

  /** At `k` the strings part, `s` ending there or going on with a smaller code point. */
  ghost predicate PartsAt(s: string, t: string, k: int) {
    0 <= k <= |s| && k < |t| && s[..k] == t[..k] && (k == |s| || s[k] < t[k])
  }

  lemma {:induction false} TextLeIff(s: string, t: string)
    ensures TextLe(s, t) <==> s == t || exists k :: PartsAt(s, t, k)
  {
    if s != "" && t != "" && s[0] == t[0] {
      TextLeIff(s[1..], t[1..]);
      assert s == [s[0]] + s[1..] && t == [t[0]] + t[1..];
      if k :| PartsAt(s[1..], t[1..], k) {
        assert s[..k + 1] == [s[0]] + s[1..][..k] && t[..k + 1] == [t[0]] + t[1..][..k];
        assert PartsAt(s, t, k + 1);
      }
      if k :| PartsAt(s, t, k) {
        assert s[1..][..k - 1] == s[..k][1..] && t[1..][..k - 1] == t[..k][1..];
        assert PartsAt(s[1..], t[1..], k - 1);
      }
    } else if s != t && TextLe(s, t) {
      assert PartsAt(s, t, 0);
    }
  }

  // ----------------------------------------------------------------------------------- lines

  /** What `str.splitlines` takes for the end of a line. */
  predicate IsBreak(c: char) {
    c in {'\n', '\r', '\U{0B}', '\U{0C}', '\U{1C}', '\U{1D}', '\U{1E}', '\U{85}', '\U{2028}', '\U{2029}'}
  }

  /** The line ends of `str.splitlines`, by code point. */
  lemma BreaksAre(c: char)
    ensures IsBreak(c) <==> var n := c as int; 10 <= n <= 13 || 28 <= n <= 30 || n == 133 || n == 8_232 || n == 8_233
  {
  }

  predicate HasBreak(s: string) {
    exists i :: 0 <= i < |s| && IsBreak(s[i])
  }

  /** The position of the first break, or the end. */
  function LineEnd(s: string): (k: nat)
    ensures k <= |s|
    ensures forall i :: 0 <= i < k ==> !IsBreak(s[i])
    ensures k < |s| ==> IsBreak(s[k])
  {
    if s == "" || IsBreak(s[0]) then 0 else 1 + LineEnd(s[1..])
  }

  function SplitLines(s: string): (lines: seq<string>)
    ensures forall line :: line in lines ==> !HasBreak(line)
    decreases |s|
  {
    var k := LineEnd(s);
    if s == "" then []
    else if k == |s| then [s]
    else
      var skip := if "\r\n" <= s[k..] then 2 else 1;
      [s[..k]] + SplitLines(s[k + skip..])
  }

  /** One record a line: every line is ended, so no lines make an empty file. */
  function WriteLines(lines: seq<string>): string {
    if lines == [] then "" else lines[0] + "\n" + WriteLines(lines[1..])
  }

  function ReadLines(s: string): (lines: seq<string>)
    ensures forall line :: line in lines ==> IsOneLine(line)
  {
    Filter(SplitLines(s), line => !IsBlank(line))
  }

  /** A record that can stand on a line of its own. */
  predicate IsOneLine(s: string) {
    !HasBreak(s) && !IsBlank(s)
  }

  /** A line ends at the first break, whichever it is; only a carriage return may take a second character with it. */
  lemma LineBefore(line: string, c: char, rest: string)
    requires !HasBreak(line) && IsBreak(c) && c != '\r'
    ensures SplitLines(line + [c] + rest) == [line] + SplitLines(rest)
  {
    var s := line + [c] + rest;
    assert s[|line|] == c;
    var k := LineEnd(s);
    assert forall i :: 0 <= i < |line| ==> s[i] == line[i] && !IsBreak(s[i]);
    assert k == |line| && s[..k] == line;
    assert s[k..][0] == c && s[k + 1..] == rest;
  }

  lemma FirstLine(line: string, rest: string)
    requires !HasBreak(line)
    ensures SplitLines(line + "\n" + rest) == [line] + SplitLines(rest)
  {
    LineBefore(line, '\n', rest);
  }

  /** A file of records reads back as those records exactly when each can stand on a line of its own. */
  lemma {:induction false} ReadsBackIff(lines: seq<string>)
    ensures ReadLines(WriteLines(lines)) == lines <==> forall line :: line in lines ==> IsOneLine(line)
  {
    if forall line :: line in lines ==> IsOneLine(line) {
      ReadsBack(lines);
    }
  }

  lemma {:induction false} ReadsBack(lines: seq<string>)
    requires forall line :: line in lines ==> IsOneLine(line)
    ensures ReadLines(WriteLines(lines)) == lines
  {
    if lines != [] {
      assert lines[0] in lines && forall line :: line in lines[1..] ==> line in lines;
      FirstLine(lines[0], WriteLines(lines[1..]));
      ReadsBack(lines[1..]);
    }
  }

  // ---------------------------------------------------------------------------------- numbers

  const DIGITS := "0123456789"

  /** A number in decimal digits. */
  function Decimal(n: nat): (s: string)
    ensures if n < 10 then |s| == 1 else |s| > 1
  {
    if n < 10 then [DIGITS[n]] else Decimal(n / 10) + [DIGITS[n % 10]]
  }

  /** Different numbers have different digits. */
  lemma {:induction false} DecimalIsInjective(m: nat, n: nat)
    requires Decimal(m) == Decimal(n)
    ensures m == n
  {
    var s, t := Decimal(m), Decimal(n);
    assert s[|s| - 1] == DIGITS[m % 10] && t[|t| - 1] == DIGITS[n % 10];
    if m >= 10 {
      assert s[..|s| - 1] == Decimal(m / 10) && t[..|t| - 1] == Decimal(n / 10);
      DecimalIsInjective(m / 10, n / 10);
    }
  }

  // -------------------------------------------------------------------------- quoted strings

  const HEX := "0123456789abcdef"

  /** The escapes of section 3.2.2.2 of RFC 8785; every other character stands for itself. */
  function Escape(c: char): string {
    if c == '\"' then "\\\""
    else if c == '\\' then "\\\\"
    else if c == '\U{08}' then "\\b"
    else if c == '\t' then "\\t"
    else if c == '\n' then "\\n"
    else if c == '\U{0C}' then "\\f"
    else if c == '\r' then "\\r"
    else if c < ' ' then "\\u00" + [HEX[c as int / 16], HEX[c as int % 16]]
    else [c]
  }

  function Escaped(s: string): string {
    if s == "" then "" else Escape(s[0]) + Escaped(s[1..])
  }

  function Quote(s: string): string {
    "\"" + Escaped(s) + "\""
  }

  /** The breaks that a quoted string leaves as they are: next line, line and paragraph separator. */
  predicate StaysBreak(c: char) {
    c in {'\U{85}', '\U{2028}', '\U{2029}'}
  }

  lemma EscapeBreaks(c: char)
    ensures HasBreak(Escape(c)) <==> StaysBreak(c)
  {
    var e := Escape(c);
    BreaksAre(c);
    if StaysBreak(c) {
      assert IsBreak(e[0]);
    } else if c < ' ' {
      assert forall i :: 0 <= i < 16 ==> !IsBreak(HEX[i]);
    }
  }

  lemma BreakInTwo(s: string, t: string)
    ensures HasBreak(s + t) <==> HasBreak(s) || HasBreak(t)
  {
    if HasBreak(s) {
      var i :| 0 <= i < |s| && IsBreak(s[i]);
      assert (s + t)[i] == s[i];
    }
    if HasBreak(t) {
      var i :| 0 <= i < |t| && IsBreak(t[i]);
      assert (s + t)[|s| + i] == t[i];
    }
  }

  /** A quoted string can be broken over lines exactly when the text has one of three breaks. */
  lemma {:induction false} EscapedBreaks(s: string)
    ensures HasBreak(Escaped(s)) <==> exists i :: 0 <= i < |s| && StaysBreak(s[i])
  {
    if s != "" {
      EscapeBreaks(s[0]);
      BreakInTwo(Escape(s[0]), Escaped(s[1..]));
      EscapedBreaks(s[1..]);
      if i :| 0 <= i < |s| && StaysBreak(s[i]) {
        if i > 0 {
          assert s[1..][i - 1] == s[i];
        }
      }
    }
  }

  lemma QuotedBreaks(s: string)
    ensures HasBreak(Quote(s)) <==> exists i :: 0 <= i < |s| && StaysBreak(s[i])
  {
    EscapedBreaks(s);
    BreakInTwo("\"" + Escaped(s), "\"");
    BreakInTwo("\"", Escaped(s));
  }
}
