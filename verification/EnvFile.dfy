/** The merge of the hub's settings into the `.env` file, after a backup under a name that is free. */
module EnvFile {
  import opened Wrappers
  import opened Text
  import opened Sequences
  import Enroll

  /** What reading text makes of line ends: one kind. */
  function Universal(s: string): string {
    if s == "" then ""
    else if "\r\n" <= s then "\n" + Universal(s[2..])
    else if s[0] == '\r' then "\n" + Universal(s[1..])
    else [s[0]] + Universal(s[1..])
  }

  function TrimLeft(s: string): string {
    if s != "" && IsSpace(s[0]) then TrimLeft(s[1..]) else s
  }

  function TrimRight(s: string): string {
    if s != "" && IsSpace(s[|s| - 1]) then TrimRight(s[..|s| - 1]) else s
  }

  /** The text before the first equals sign. */
  function BeforeEquals(line: string): string {
    if line == "" || line[0] == '=' then "" else [line[0]] + BeforeEquals(line[1..])
  }

  /** The key of a line, or the whole of it when it has no equals sign. */
  function KeyOf(line: string): string {
    TrimRight(TrimLeft(BeforeEquals(line)))
  }

  /**
   The key of a line: what stands before its first equals sign, or the whole line when it has none,
   without the white space around it.
   */
  ghost predicate IsKeyOf(line: string, key: string) {
    exists left, right ::
      && IsBlank(left) && IsBlank(right) && IsBare(key) && !HasEquals(left + key + right)
      && (left + key + right == line || left + key + right + "=" <= line)
  }

  /** Text that neither begins nor ends with white space. */
  predicate IsBare(s: string) {
    s != "" ==> !IsSpace(s[0]) && !IsSpace(s[|s| - 1])
  }

  predicate HasEquals(s: string) {
    exists i :: 0 <= i < |s| && s[i] == '='
  }

  lemma {:induction false} BeforeEqualsIs(line: string)
    ensures !HasEquals(BeforeEquals(line))
    ensures BeforeEquals(line) == line || BeforeEquals(line) + "=" <= line
  {
    if line != "" && line[0] != '=' {
      BeforeEqualsIs(line[1..]);
      assert line == [line[0]] + line[1..];
      assert forall i :: 0 < i < |BeforeEquals(line)| ==> BeforeEquals(line)[i] == BeforeEquals(line[1..])[i - 1];
    }
  }

  lemma {:induction false} TrimLeftIs(s: string) returns (left: string)
    ensures s == left + TrimLeft(s) && IsBlank(left)
    ensures TrimLeft(s) != "" ==> !IsSpace(TrimLeft(s)[0])
  {
    left := "";
    if s != "" && IsSpace(s[0]) {
      var rest := TrimLeftIs(s[1..]);
      left := [s[0]] + rest;
      assert s == [s[0]] + s[1..];
    }
  }

  lemma {:induction false} TrimRightIs(s: string) returns (right: string)
    ensures s == TrimRight(s) + right && IsBlank(right)
    ensures TrimRight(s) != "" ==> !IsSpace(TrimRight(s)[|TrimRight(s)| - 1])
  {
    right := "";
    if s != "" && IsSpace(s[|s| - 1]) {
      var rest := TrimRightIs(s[..|s| - 1]);
      right := rest + [s[|s| - 1]];
      assert s == s[..|s| - 1] + [s[|s| - 1]];
    }
  }

  /** Every line has one key, and it is the one computed. */
  lemma KeyIs(line: string)
    ensures IsKeyOf(line, KeyOf(line))
  {
    var before := BeforeEquals(line);
    BeforeEqualsIs(line);
    var left := TrimLeftIs(before);
    var right := TrimRightIs(TrimLeft(before));
    assert before == left + KeyOf(line) + right;
  }

  lemma {:induction false} BareInside(left: string, key: string, right: string)
    requires IsBlank(left) && IsBlank(right) && IsBare(key)
    ensures TrimRight(TrimLeft(left + key + right)) == key
  {
    if left != "" {
      assert (left + key + right)[1..] == left[1..] + key + right;
      BareInside(left[1..], key, right);
    } else if key != "" {
      assert left + key + right == key + right;
      BareBefore(key, right);
    } else {
      assert left + key + right == right;
      BlankIsTrimmed(right);
    }
  }

  lemma {:induction false} BareBefore(key: string, right: string)
    requires IsBlank(right) && IsBare(key)
    ensures TrimRight(key + right) == key
  {
    if right != "" {
      assert (key + right)[..|key + right| - 1] == key + right[..|right| - 1];
      BareBefore(key, right[..|right| - 1]);
    } else {
      assert key + right == key;
    }
  }

  lemma {:induction false} BlankIsTrimmed(s: string)
    requires IsBlank(s)
    ensures TrimLeft(s) == ""
  {
    if s != "" {
      BlankIsTrimmed(s[1..]);
    }
  }

  lemma {:induction false} BeforeEqualsIsUnique(line: string, before: string)
    requires !HasEquals(before) && (before == line || before + "=" <= line)
    ensures before == BeforeEquals(line)
  {
    if before != "" {
      assert before[0] != '=' && line[0] == before[0];
      assert before + "=" <= line ==> before[1..] + "=" <= line[1..];
      BeforeEqualsIsUnique(line[1..], before[1..]);
    } else if line != "" {
      assert ("" + "=")[0] == '=';
    }
  }

  lemma KeyIsUnique(line: string, key: string)
    requires IsKeyOf(line, key)
    ensures key == KeyOf(line)
  {
    var left, right :|
      && IsBlank(left) && IsBlank(right) && IsBare(key) && !HasEquals(left + key + right)
      && (left + key + right == line || left + key + right + "=" <= line);
    BeforeEqualsIsUnique(line, left + key + right);
    BareInside(left, key, right);
  }

  const UPDATED := {"HUB_MODE", "HUB_URL", "HUB_TOKEN"}

  /** The lines of other keys, in order. */
  function Kept(lines: seq<string>): seq<string> {
    Filter(lines, line => KeyOf(line) !in UPDATED)
  }

  function Updates(hubUrl: string, hubToken: string): seq<string> {
    ["HUB_MODE=" + Enroll.BACKEND_MODE_POSTGRES, "HUB_URL=" + hubUrl, "HUB_TOKEN=" + hubToken]
  }

  /** The new file, from what the old one read as. */
  function Merged(original: string, hubUrl: string, hubToken: string): string {
    WriteLines(Kept(SplitLines(original)) + Updates(hubUrl, hubToken))
  }

  // ------------------------------------------------------------------- lines, however they end

  /** Reading leaves no carriage return, and text that has none as it is. */
  lemma {:induction false} UniversalHasNoReturn(s: string)
    ensures '\r' !in Universal(s)
    ensures '\r' !in s ==> Universal(s) == s
    decreases |s|
  {
    if s != "" {
      UniversalHasNoReturn(s[1..]);
      if "\r\n" <= s {
        assert s[0] == "\r\n"[0];
        UniversalHasNoReturn(s[2..]);
      }
      assert s == [s[0]] + s[1..];
    }
  }

  lemma {:induction false} UniversalPrefix(line: string, rest: string)
    requires !HasBreak(line)
    ensures Universal(line + rest) == line + Universal(rest)
  {
    if line == "" {
      assert line + rest == rest;
    } else {
      assert (line + rest)[1..] == line[1..] + rest && !IsBreak(line[0]);
      assert (line + rest)[0] == line[0] != '\r';
      assert forall i :: 0 <= i < |line[1..]| ==> line[1..][i] == line[i + 1];
      UniversalPrefix(line[1..], rest);
    }
  }

  /** The length of the break at the start of a text. */
  function BreakLength(tail: string): nat {
    if "\r\n" <= tail then 2 else 1
  }

  lemma UniversalBreak(tail: string)
    requires tail != "" && IsBreak(tail[0])
    ensures BreakLength(tail) <= |tail|
    ensures var c := if tail[0] == '\r' then '\n' else tail[0];
            Universal(tail) == [c] + Universal(tail[BreakLength(tail)..])
  {
  }

  lemma SplitFirstLine(line: string, tail: string)
    requires !HasBreak(line) && tail != "" && IsBreak(tail[0]) && BreakLength(tail) <= |tail|
    ensures SplitLines(line + tail) == [line] + SplitLines(tail[BreakLength(tail)..])
  {
    LineEndsAt(line, tail);
    assert (line + tail)[..|line|] == line && (line + tail)[|line|..] == tail;
    assert (line + tail)[|line| + BreakLength(tail)..] == tail[BreakLength(tail)..];
  }

  lemma {:induction false} LineEndsAt(line: string, tail: string)
    requires !HasBreak(line) && tail != "" && IsBreak(tail[0])
    ensures LineEnd(line + tail) == |line|
  {
    var s := line + tail;
    assert forall i :: 0 <= i < |line| ==> s[i] == line[i] && !IsBreak(s[i]);
    assert s[|line|] == tail[0];
  }

  lemma UniversalFirstLine(line: string, tail: string)
    requires !HasBreak(line) && tail != "" && IsBreak(tail[0]) && BreakLength(tail) <= |tail|
    ensures SplitLines(Universal(line + tail)) == [line] + SplitLines(Universal(tail[BreakLength(tail)..]))
  {
    var rest := Universal(tail[BreakLength(tail)..]);
    var c := if tail[0] == '\r' then '\n' else tail[0];
    UniversalPrefix(line, tail);
    UniversalBreak(tail);
    assert BreakLength([c] + rest) == 1 && ([c] + rest)[1..] == rest;
    SplitFirstLine(line, [c] + rest);
  }

  /** Lines are the same after line ends have been made one kind. */
  lemma {:induction false} SplitUniversal(s: string)
    ensures SplitLines(Universal(s)) == SplitLines(s)
    decreases |s|
  {
    var k := LineEnd(s);
    var line, tail := s[..k], s[k..];
    assert s == line + tail;
    if k == |s| {
      UniversalPrefix(s, "");
      assert s + "" == s && s + Universal("") == s;
    } else {
      UniversalBreak(tail);
      SplitFirstLine(line, tail);
      UniversalFirstLine(line, tail);
      SplitUniversal(tail[BreakLength(tail)..]);
    }
  }

  lemma {:induction false} SplitWritten(lines: seq<string>, rest: string)
    requires forall line :: line in lines ==> !HasBreak(line)
    ensures SplitLines(WriteLines(lines) + rest) == lines + SplitLines(rest)
  {
    if lines == [] {
      assert WriteLines(lines) + rest == rest;
    } else {
      var others := lines[1..];
      assert lines[0] in lines && forall line :: line in others ==> line in lines;
      SplitWritten(others, rest);
      WrittenThenRest(lines, rest);
      LinesInThree(lines, SplitLines(rest));
    }
  }

  lemma LinesInThree(lines: seq<string>, more: seq<string>)
    requires lines != []
    ensures [lines[0]] + (lines[1..] + more) == lines + more
  {
  }

  lemma WrittenThenRest(lines: seq<string>, rest: string)
    requires lines != [] && !HasBreak(lines[0])
    ensures SplitLines(WriteLines(lines) + rest) == [lines[0]] + SplitLines(WriteLines(lines[1..]) + rest)
  {
    WrittenFirst(lines, rest);
    FirstLine(lines[0], WriteLines(lines[1..]) + rest);
  }

  lemma WrittenFirst(lines: seq<string>, rest: string)
    requires lines != []
    ensures WriteLines(lines) + rest == lines[0] + "\n" + (WriteLines(lines[1..]) + rest)
  {
  }

  lemma {:induction false} WriteConcat(xs: seq<string>, ys: seq<string>)
    ensures WriteLines(xs + ys) == WriteLines(xs) + WriteLines(ys)
  {
    if xs == [] {
      assert xs + ys == ys;
    } else {
      assert (xs + ys)[1..] == xs[1..] + ys;
      WriteConcat(xs[1..], ys);
    }
  }

  // --------------------------------------------------------------------------------- the merge

  /** The lines that the settings read back as. */
  function ReadBack(hubUrl: string, hubToken: string): seq<string> {
    SplitLines(WriteLines(Updates(hubUrl, hubToken)))
  }

  /** Read again, the new file has the lines of other keys as they were, then those of the settings. */
  lemma MergeKeepsOthers(original: string, hubUrl: string, hubToken: string)
    ensures var lines := SplitLines(Universal(Merged(original, hubUrl, hubToken)));
            && lines == Kept(SplitLines(original)) + ReadBack(hubUrl, hubToken)
            && Kept(lines) == Kept(SplitLines(original)) + Kept(ReadBack(hubUrl, hubToken))
  {
    var kept, updates := Kept(SplitLines(original)), Updates(hubUrl, hubToken);
    SplitUniversal(Merged(original, hubUrl, hubToken));
    WriteConcat(kept, updates);
    SplitWritten(kept, WriteLines(updates));
    FilterConcat(kept, ReadBack(hubUrl, hubToken), line => KeyOf(line) !in UPDATED);
    FilterKeepsAll(kept, line => KeyOf(line) !in UPDATED);
  }

  /** Merging twice is merging once exactly when every line the settings read back as belongs to one of their keys. */
  lemma MergeIsIdempotentIff(original: string, hubUrl: string, hubToken: string)
    ensures var once := Merged(original, hubUrl, hubToken);
            Merged(Universal(once), hubUrl, hubToken) == once
            <==> forall line :: line in ReadBack(hubUrl, hubToken) ==> KeyOf(line) in UPDATED
  {
    var kept, stray, updates := Kept(SplitLines(original)), Kept(ReadBack(hubUrl, hubToken)), Updates(hubUrl, hubToken);
    MergeKeepsOthers(original, hubUrl, hubToken);
    WriteConcat(kept + stray, updates);
    WriteConcat(kept, stray);
    WriteConcat(kept, updates);
    if stray == [] {
      assert kept + stray == kept;
      assert forall line :: line in ReadBack(hubUrl, hubToken) && KeyOf(line) !in UPDATED ==> line in stray;
    } else {
      assert stray[0] in stray;
      assert |WriteLines(stray)| > 0;
    }
  }

  lemma {:induction false} BeforeEqualsOf(key: string, value: string)
    requires forall i :: 0 <= i < |key| ==> key[i] != '='
    ensures BeforeEquals(key + "=" + value) == key
  {
    if key != "" {
      assert (key + "=" + value)[1..] == key[1..] + "=" + value;
      BeforeEqualsOf(key[1..], value);
    }
  }

  lemma KeyOfUpdate(key: string, value: string)
    requires key in UPDATED
    ensures KeyOf(key + "=" + value) == key
  {
    BeforeEqualsOf(key, value);
    forall i | 0 <= i < |key| ensures !IsSpace(key[i]) {
      SpacesAre(key[i]);
    }
  }

  /** The lines that are kept are those whose key is none of the three. */
  lemma KeptAre(lines: seq<string>, line: string)
    ensures line in Kept(lines)
       <==> line in lines && !IsKeyOf(line, "HUB_MODE") && !IsKeyOf(line, "HUB_URL") && !IsKeyOf(line, "HUB_TOKEN")
  {
    KeyIs(line);
    forall key | IsKeyOf(line, key) ensures key == KeyOf(line) {
      KeyIsUnique(line, key);
    }
  }

  lemma UpdatesAre(hubUrl: string, hubToken: string)
    ensures Updates(hubUrl, hubToken) == ["HUB_MODE=postgres", "HUB_URL=" + hubUrl, "HUB_TOKEN=" + hubToken]
  {
    assert "HUB_MODE=" + Enroll.BACKEND_MODE_POSTGRES == "HUB_MODE=postgres";
  }

  /**
   For values without line breaks, the file has the lines of other keys and then one line for each
   setting, which holds its new value; and merging twice is merging once.
   */
  lemma MergeSetsEachOnce(original: string, hubUrl: string, hubToken: string)
    requires !HasBreak(hubUrl) && !HasBreak(hubToken)
    ensures SplitLines(Universal(Merged(original, hubUrl, hubToken)))
         == Kept(SplitLines(original)) + ["HUB_MODE=postgres", "HUB_URL=" + hubUrl, "HUB_TOKEN=" + hubToken]
    ensures forall line :: line in Kept(SplitLines(original)) ==> KeyOf(line) !in UPDATED
    ensures Merged(Universal(Merged(original, hubUrl, hubToken)), hubUrl, hubToken) == Merged(original, hubUrl, hubToken)
  {
    UpdatesReadBack(hubUrl, hubToken);
    MergeKeepsOthers(original, hubUrl, hubToken);
    UpdatesAre(hubUrl, hubToken);
    UpdatesAreUpdated(hubUrl, hubToken);
    MergeIsIdempotentIff(original, hubUrl, hubToken);
  }

  lemma UpdatesAreUpdated(hubUrl: string, hubToken: string)
    ensures forall line :: line in Updates(hubUrl, hubToken) ==> KeyOf(line) in UPDATED
  {
    UpdatesHaveTheirKeys(hubUrl, hubToken);
  }

  /** The text has the lines of other keys and then one for each setting, whatever the line ends of the original. */
  ghost predicate IsMerge(original: string, text: string, hubUrl: string, hubToken: string) {
    !HasBreak(hubUrl) && !HasBreak(hubToken) ==>
      SplitLines(text) == Kept(SplitLines(original)) + ["HUB_MODE=postgres", "HUB_URL=" + hubUrl, "HUB_TOKEN=" + hubToken]
  }

  lemma MergedIsMerge(original: string, hubUrl: string, hubToken: string)
    ensures IsMerge(original, Merged(Universal(original), hubUrl, hubToken), hubUrl, hubToken)
  {
    if !HasBreak(hubUrl) && !HasBreak(hubToken) {
      SplitUniversal(original);
      SplitUniversal(Merged(Universal(original), hubUrl, hubToken));
      MergeSetsEachOnce(Universal(original), hubUrl, hubToken);
    }
  }

  lemma UpdatesReadBack(hubUrl: string, hubToken: string)
    requires !HasBreak(hubUrl) && !HasBreak(hubToken)
    ensures ReadBack(hubUrl, hubToken) == Updates(hubUrl, hubToken)
  {
    BreakInTwo("HUB_URL=", hubUrl);
    BreakInTwo("HUB_TOKEN=", hubToken);
    AllReadBack(Updates(hubUrl, hubToken));
  }

  lemma AllReadBack(lines: seq<string>)
    requires forall line :: line in lines ==> !HasBreak(line)
    ensures SplitLines(WriteLines(lines)) == lines
  {
    SplitWritten(lines, "");
    assert WriteLines(lines) + "" == WriteLines(lines) && lines + [] == lines;
  }

  lemma UpdatesHaveTheirKeys(hubUrl: string, hubToken: string)
    ensures var updates := Updates(hubUrl, hubToken);
            KeyOf(updates[0]) == "HUB_MODE" && KeyOf(updates[1]) == "HUB_URL" && KeyOf(updates[2]) == "HUB_TOKEN"
  {
    KeyOfUpdate("HUB_MODE", Enroll.BACKEND_MODE_POSTGRES);
    KeyOfUpdate("HUB_URL", hubUrl);
    KeyOfUpdate("HUB_TOKEN", hubToken);
    assert "HUB_MODE=" + Enroll.BACKEND_MODE_POSTGRES == "HUB_MODE" + "=" + Enroll.BACKEND_MODE_POSTGRES;
    assert "HUB_URL=" + hubUrl == "HUB_URL" + "=" + hubUrl;
    assert "HUB_TOKEN=" + hubToken == "HUB_TOKEN" + "=" + hubToken;
  }

  /** A URL that a payload may have, with a line separator in its path. */
  const BROKEN_URL := "https://h/\U{2028}x"

  /** It leaves a stray line behind, and each merge adds another. */
  lemma BrokenUrlAccumulates(original: string, hubToken: string)
    requires !HasBreak(hubToken)
    ensures Enroll.IsHttpUrl(BROKEN_URL) && "x" in ReadBack(BROKEN_URL, hubToken)
    ensures var once := Merged(original, BROKEN_URL, hubToken); Merged(Universal(once), BROKEN_URL, hubToken) != once
  {
    BrokenUrlLines(hubToken);
    assert ReadBack(BROKEN_URL, hubToken)[2] == "x";
    StrayKey();
    MergeIsIdempotentIff(original, BROKEN_URL, hubToken);
  }

  lemma BrokenUrlLines(hubToken: string)
    requires !HasBreak(hubToken)
    ensures ReadBack(BROKEN_URL, hubToken)
         == ["HUB_MODE=" + Enroll.BACKEND_MODE_POSTGRES, "HUB_URL=https://h/", "x", "HUB_TOKEN=" + hubToken]
  {
    BreakInTwo("HUB_TOKEN=", hubToken);
    assert "HUB_URL=" + BROKEN_URL == "HUB_URL=https://h/" + ['\U{2028}'] + "x";
    SeparatorBreaks("HUB_MODE=" + Enroll.BACKEND_MODE_POSTGRES, "HUB_URL=https://h/", "x", "HUB_TOKEN=" + hubToken);
  }

  /** The second of three lines reads back as two when it has a line separator in it. */
  lemma SeparatorBreaks(first: string, head: string, tail: string, last: string)
    requires !HasBreak(first) && !HasBreak(head) && !HasBreak(tail) && !HasBreak(last)
    ensures SplitLines(WriteLines([first, head + ['\U{2028}'] + tail, last])) == [first, head, tail, last]
  {
    var second := head + ['\U{2028}'] + tail;
    WriteThree(first, second, last);
    FirstLine(first, second + "\n" + (last + "\n"));
    BrokenLine(head, tail, last);
  }

  lemma WriteThree(a: string, b: string, c: string)
    ensures WriteLines([a, b, c]) == a + "\n" + (b + "\n" + (c + "\n"))
  {
    assert [a, b, c][1..] == [b, c] && [b, c][1..] == [c] && [c][1..] == [];
    assert WriteLines([c]) == c + "\n";
  }

  lemma BrokenLine(head: string, tail: string, last: string)
    requires !HasBreak(head) && !HasBreak(tail) && !HasBreak(last)
    ensures SplitLines(head + ['\U{2028}'] + tail + "\n" + (last + "\n")) == [head, tail, last]
  {
    var end := last + "\n";
    Regroup(head, ['\U{2028}'], tail, "\n", end);
    LineBefore(head, '\U{2028}', tail + "\n" + end);
    FirstLine(tail, end);
    LastLine(last);
  }

  lemma Regroup(a: string, b: string, c: string, d: string, e: string)
    ensures a + b + c + d + e == a + b + (c + d + e)
  {
  }

  lemma LastLine(line: string)
    requires !HasBreak(line)
    ensures SplitLines(line + "\n") == [line]
  {
    assert line + "\n" == line + "\n" + "";
    FirstLine(line, "");
  }

  lemma StrayKey()
    ensures KeyOf("x") !in UPDATED
  {
    assert BeforeEquals("x") == ['x'] + BeforeEquals("x"[1..]) == "x";
    assert TrimLeft("x") == "x" && TrimRight("x") == "x";
    assert |"x"| != |"HUB_MODE"|;
  }

  // -------------------------------------------------------------------------------- the backup

  /** The names tried for the backup, in order: the plain one, then with a counter from 2. */
  function Candidate(base: string, k: nat): string {
    if k == 0 then base else base + "-" + Decimal(k + 1)
  }

  lemma CandidatesDiffer(base: string, j: nat, k: nat)
    requires Candidate(base, j) == Candidate(base, k)
    ensures j == k
  {
    assert j > 0 ==> Candidate(base, j)[|base| + 1..] == Decimal(j + 1);
    assert k > 0 ==> Candidate(base, k)[|base| + 1..] == Decimal(k + 1);
    if j > 0 && k > 0 {
      DecimalIsInjective(j + 1, k + 1);
    } else {
      assert |Candidate(base, j)| == |Candidate(base, k)|;
    }
  }

  /** The first `k` candidates. */
  ghost function Tried(base: string, k: nat): set<string> {
    if k == 0 then {} else Tried(base, k - 1) + {Candidate(base, k - 1)}
  }

  lemma {:induction false} CandidateIsNew(base: string, k: nat, n: nat := k)
    requires n <= k
    ensures Candidate(base, k) !in Tried(base, n)
  {
    if n > 0 {
      if Candidate(base, n - 1) == Candidate(base, k) {
        CandidatesDiffer(base, n - 1, k);
      }
      CandidateIsNew(base, k, n - 1);
    }
  }

  lemma {:induction false} IsTried(base: string, j: nat, k: nat)
    requires j < k
    ensures Candidate(base, j) in Tried(base, k)
  {
    if j < k - 1 {
      IsTried(base, j, k - 1);
    }
  }

  lemma OneFewerUntried(names: set<string>, base: string, k: nat)
    requires Candidate(base, k) in names && Tried(base, k) <= names
    ensures Tried(base, k + 1) <= names
    ensures Candidate(base, k) in names - Tried(base, k)
    ensures names - Tried(base, k) - {Candidate(base, k)} == names - Tried(base, k + 1)
  {
    CandidateIsNew(base, k);
  }

  /** The plain name when it is free, and else the one with the least counter from 2 that is. */
  ghost predicate IsBackup(files: map<string, string>, base: string, k: nat, name: string) {
    && name == (if k == 0 then base else base + "-" + Decimal(k + 1))
    && (k > 0 ==> base in files) && forall n :: 2 <= n < k + 1 ==> base + "-" + Decimal(n) in files
  }

  lemma FirstFreeIsBackup(files: map<string, string>, base: string, k: nat)
    requires forall j :: 0 <= j < k ==> Candidate(base, j) in files
    ensures IsBackup(files, base, k, Candidate(base, k))
  {
    assert k > 0 ==> Candidate(base, 0) in files;
    forall n | 2 <= n < k + 1 ensures base + "-" + Decimal(n) in files {
      assert Candidate(base, n - 1) in files;
    }
  }

  class Directory {
    var files: map<string, string>

    constructor (files: map<string, string>)
      ensures this.files == files
    {
      this.files := files;
    }

    /** The first candidate that is free; a finite directory always leaves one. */
    method FreeName(base: string) returns (name: string, ghost k: nat)
      ensures name == Candidate(base, k) && name !in files
      ensures if k == 0 then name == base else name == base + "-" + Decimal(k + 1)
      ensures forall j :: 0 <= j < k ==> Candidate(base, j) in files
    {
      name, k := base, 0;
      var counter := 1;
      ghost var untried := files.Keys;
      while name in files
        invariant counter == k + 1 && name == Candidate(base, k)
        invariant Tried(base, k) <= files.Keys
        invariant untried == files.Keys - Tried(base, k)
        decreases |untried|
      {
        OneFewerUntried(files.Keys, base, k);
        untried := untried - {name};
        counter := counter + 1;
        name, k := base + "-" + Decimal(counter), k + 1;
      }
      forall j | 0 <= j < k ensures Candidate(base, j) in files {
        IsTried(base, j, k);
      }
    }

    /** Back up what is there, under a new name; then write the merged file. Nothing else is touched. */
    method WriteEnv(env: string, stamp: string, hubUrl: string, hubToken: string) returns (backup: Option<string>)
      modifies this
      ensures backup.Some? <==> old(env in files)
      ensures backup.Some? ==>
                && backup.value !in old(files) && backup.value != env
                && files == old(files)[backup.value := Universal(old(files)[env])]
                              [env := Merged(Universal(old(files)[env]), hubUrl, hubToken)]
                && exists k :: IsBackup(old(files), env + ".bak-" + stamp, k, backup.value)
      ensures backup.None? ==> files == old(files)[env := Merged("", hubUrl, hubToken)]
      ensures IsMerge(if old(env in files) then old(files)[env] else "", files[env], hubUrl, hubToken)
    {
      MergedIsMerge(if env in files then files[env] else "", hubUrl, hubToken);
      backup := None;
      var lines: seq<string> := [];
      if env in files {
        var original := Universal(files[env]);
        var name, k := FreeName(env + ".bak-" + stamp);
        FirstFreeIsBackup(files, env + ".bak-" + stamp, k);
        backup := Some(name);
        files := files[name := original];
        var read := SplitLines(original);
        for i := 0 to |read|
          invariant Kept(read) == lines + Kept(read[i..])
        {
          assert read[i..][0] == read[i] && read[i..][1..] == read[i + 1..];
          if KeyOf(read[i]) in UPDATED {
            continue;
          }
          assert lines + ([read[i]] + Kept(read[i + 1..])) == lines + [read[i]] + Kept(read[i + 1..]);
          lines := lines + [read[i]];
        }
        assert lines + Kept(read[|read|..]) == lines;
      }
      files := files[env := WriteLines(lines + Updates(hubUrl, hubToken))];
    }
  }
}
