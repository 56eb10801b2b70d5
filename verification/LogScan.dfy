/**
 The server log scanner (internal/prodclone/logscan.go): lines arrive in parts of any size and a
 lowercased tail of 20 characters is carried from part to part.  Text is ASCII, so one character is
 one byte and strings.ToLower maps A-Z only.
 */
module LogScan {
  import opened Options

  const PERMISSION_DENIED := "permission denied"
  const CANNOT_EXECUTE := "cannot execute"
  const READ_ONLY := "read-only transaction"

  const PATTERNS: seq<string> := [PERMISSION_DENIED, CANNOT_EXECUTE, READ_ONLY]

  const MARKER := "blocked-write marker detected: "

  const MAX_TAIL: nat := 20

  function LowerChar(c: char): char {
    if 'A' <= c <= 'Z' then (c as int + 32) as char else c
  }

  function Lower(s: string): (r: string)
    ensures |r| == |s| && forall i | 0 <= i < |s| :: r[i] == LowerChar(s[i])
  {
    seq(|s|, i requires 0 <= i < |s| => LowerChar(s[i]))
  }

  predicate OccursAt(s: string, p: string, i: nat) {
    i + |p| <= |s| && s[i..i + |p|] == p
  }

  predicate Contains(s: string, p: string) {
    exists i | 0 <= i <= |s| :: OccursAt(s, p, i)
  }

  /** Some pattern occurs in the whole line, whatever its case. */
  predicate Blocked(line: string) {
    exists p | p in PATTERNS :: Contains(Lower(line), p)
  }

  /** Equal but for the case of letters. */
  predicate EqualFold(m: string, p: string) {
    |m| == |p| && forall i | 0 <= i < |p| ::
      m[i] == p[i] || ('a' <= p[i] <= 'z' && m[i] as int + 32 == p[i] as int)
  }

  /** The line has the text somewhere in it, in any case. */
  ghost predicate Mentions(line: string, p: string) {
    exists i, j | 0 <= i <= j <= |line| :: EqualFold(line[i..j], p)
  }

  predicate IsLower(p: string) {
    forall i | 0 <= i < |p| :: !('A' <= p[i] <= 'Z')
  }

  lemma ContainsMeaning(line: string, p: string)
    requires IsLower(p)
    ensures Contains(Lower(line), p) <==> Mentions(line, p)
  {
    if Contains(Lower(line), p) {
      var i :| 0 <= i <= |Lower(line)| && OccursAt(Lower(line), p, i);
      var m := line[i..i + |p|];
      forall k | 0 <= k < |p| ensures m[k] == p[k] || ('a' <= p[k] <= 'z' && m[k] as int + 32 == p[k] as int) {
        assert p[k] == Lower(line)[i..i + |p|][k] == LowerChar(line[i + k]);
      }
      assert EqualFold(m, p);
    }
    if i, j :| 0 <= i <= j <= |line| && EqualFold(line[i..j], p) {
      var found := Lower(line)[i..i + |p|];
      forall k | 0 <= k < |p| ensures found[k] == p[k] {
        assert line[i..j][k] == line[i + k];
      }
      assert found == p;
      assert OccursAt(Lower(line), p, i);
    }
  }

  /** A blocked line mentions one of the three texts. */
  lemma BlockedMeaning(line: string)
    ensures Blocked(line) <==>
              || Mentions(line, "permission denied") || Mentions(line, "cannot execute")
              || Mentions(line, "read-only transaction")
  {
    ContainsMeaning(line, PERMISSION_DENIED);
    ContainsMeaning(line, CANNOT_EXECUTE);
    ContainsMeaning(line, READ_ONLY);
    assert PATTERNS[0] in PATTERNS && PATTERNS[1] in PATTERNS && PATTERNS[2] in PATTERNS;
  }

  /** The lines of a text; what follows the last newline is a line only if it is not empty. */
  function Lines(text: string): (r: seq<string>) {
    if text == "" then [] else
      var i := LineEnd(text);
      [text[..i]] + if i == |text| then [] else Lines(text[i + 1..])
  }

  function LineEnd(text: string): (i: nat)
    ensures i <= |text| && '\n' !in text[..i]
    ensures i < |text| ==> text[i] == '\n'
  {
    if text == "" || text[0] == '\n' then 0 else
      assert text[..1 + LineEnd(text[1..])] == [text[0]] + text[1..][..LineEnd(text[1..])];
      1 + LineEnd(text[1..])
  }

  lemma {:induction false} LineEndIs(text: string, i: nat)
    requires i <= |text| && '\n' !in text[..i] && (i < |text| ==> text[i] == '\n')
    ensures LineEnd(text) == i
    decreases i
  {
    if i > 0 {
      assert text[..i][0] == text[0];
      assert text[1..][..i - 1] == text[..i][1..];
      LineEndIs(text[1..], i - 1);
    }
  }

  /** Every line followed by a newline. */
  function Unlines(lines: seq<string>): string {
    if lines == [] then "" else lines[0] + "\n" + Unlines(lines[1..])
  }

  /** The text with its last line terminated. */
  function Terminated(text: string): string {
    if text == "" || text[|text| - 1] == '\n' then text else text + "\n"
  }

  lemma TerminatedHead(line: string, rest: string)
    ensures Terminated(line + "\n" + rest) == line + "\n" + Terminated(rest)
  {
    if rest != "" {
      var text := line + "\n" + rest;
      assert text[|text| - 1] == rest[|rest| - 1];
    }
  }

  /** Splitting loses nothing but whether the last newline was there. */
  lemma {:induction false} LinesJoin(text: string)
    ensures Unlines(Lines(text)) == Terminated(text)
    decreases |text|
  {
    if text != "" {
      var i := LineEnd(text);
      if i < |text| {
        LinesJoin(text[i + 1..]);
        UnlinesHead(text[..i], Lines(text[i + 1..]));
        TerminatedHead(text[..i], text[i + 1..]);
        assert text == text[..i] + "\n" + text[i + 1..];
      } else {
        LastLineJoins(text);
      }
    }
  }

  lemma LastLineJoins(text: string)
    requires text != "" && LineEnd(text) == |text|
    ensures Unlines(Lines(text)) == Terminated(text)
  {
    assert text[..|text|] == text;
    UnlinesHead(text, []);
    assert text[|text| - 1] in text;
  }

  lemma UnlinesHead(line: string, lines: seq<string>)
    ensures Unlines([line] + lines) == line + "\n" + Unlines(lines)
  {
    assert ([line] + lines)[1..] == lines;
  }

  // ---------------------------------------------------------------------------------------
  // A carried tail is enough

  /** The last MAX_TAIL characters. */
  function Tail(s: string): string {
    if |s| <= MAX_TAIL then s else s[|s| - MAX_TAIL..]
  }

  lemma PatternsAreShort(p: string)
    requires p in PATTERNS
    ensures 0 < |p| <= MAX_TAIL + 1 && '\r' !in p
  {
  }

  /** An occurrence inside x is one inside any text that has x at position `at`, shifted. */
  lemma OccursInside(whole: string, at: nat, x: string, p: string, i: nat)
    requires at + |x| <= |whole| && whole[at..at + |x|] == x && i + |p| <= |x|
    ensures OccursAt(x, p, i) <==> OccursAt(whole, p, at + i)
  {
    var a, b := x[i..i + |p|], whole[at + i..at + i + |p|];
    forall k | 0 <= k < |p| ensures a[k] == b[k] {
      assert x[i + k] == whole[at..at + |x|][i + k];
    }
    assert a == b;
  }

  lemma PartsOfJoin(s: string, t: string)
    ensures |s| - |Tail(s)| >= 0 && |s + t| == |s| - |Tail(s)| + |Tail(s) + t|
    ensures (s + t)[0..|s|] == s && (s + t)[|s| - |Tail(s)|..] == Tail(s) + t
  {
  }

  /** An occurrence in s + t lies in s or in the tail of s followed by t. */
  lemma TailIsEnough(s: string, t: string, p: string)
    requires 0 < |p| <= MAX_TAIL + 1
    ensures Contains(s + t, p) <==> Contains(s, p) || Contains(Tail(s) + t, p)
  {
    var whole, end, cut := s + t, Tail(s) + t, |s| - |Tail(s)|;
    PartsOfJoin(s, t);
    assert whole[cut..cut + |end|] == end;
    forall i | 0 <= i <= |whole| && OccursAt(whole, p, i) ensures Contains(s, p) || Contains(end, p) {
      if i + |p| <= |s| {
        OccursInside(whole, 0, s, p, i);
      } else {
        OccursInside(whole, cut, end, p, i - cut);
      }
    }
    forall i | 0 <= i <= |s| && OccursAt(s, p, i) ensures Contains(whole, p) {
      OccursInside(whole, 0, s, p, i);
    }
    forall i | 0 <= i <= |end| && OccursAt(end, p, i) ensures Contains(whole, p) {
      OccursInside(whole, cut, end, p, i);
    }
  }

  lemma LowerJoin(s: string, t: string)
    ensures Lower(s + t) == Lower(s) + Lower(t)
  {
  }

  lemma LowerTwice(s: string)
    ensures Lower(Lower(s)) == Lower(s)
  {
  }

  /** What the scanner searches: the carried tail and the part, lowercased together. */
  lemma SearchedText(line: string, part: string)
    ensures Lower(Tail(Lower(line)) + part) == Tail(Lower(line)) + Lower(part)
    ensures Lower(line + part) == Lower(line) + Lower(part)
  {
    LowerJoin(line, part);
    LowerJoin(Tail(Lower(line)), part);
    LowerTwice(line);
    assert Lower(Tail(Lower(line))) == Tail(Lower(line));
  }

  lemma PartDecides(line: string, part: string)
    ensures Blocked(line + part) <==> Blocked(line) || Blocked(Tail(Lower(line)) + part)
  {
    SearchedText(line, part);
    forall p | p in PATTERNS
      ensures Contains(Lower(line + part), p)
              <==> Contains(Lower(line), p) || Contains(Lower(Tail(Lower(line)) + part), p)
    {
      PatternsAreShort(p);
      TailIsEnough(Lower(line), Lower(part), p);
    }
  }

  lemma PatternStays(line: string, part: string, p: string)
    requires p in PATTERNS
    requires Contains(Lower(line), p) || Contains(Lower(Tail(Lower(line)) + part), p)
    ensures Contains(Lower(line + part), p)
  {
    SearchedText(line, part);
    PatternsAreShort(p);
    TailIsEnough(Lower(line), Lower(part), p);
  }

  lemma NextTail(line: string, part: string)
    ensures Tail(Lower(Tail(Lower(line)) + part)) == Tail(Lower(line + part))
  {
    SearchedText(line, part);
    TailOfTail(Lower(line), Lower(part));
  }

  lemma DropBefore(s: string, t: string, n: nat)
    requires n <= |s|
    ensures (s + t)[n..] == s[n..] + t
  {
  }

  lemma DropPast(s: string, t: string, n: nat)
    requires |s| <= n <= |s| + |t|
    ensures (s + t)[n..] == t[n - |s|..]
  {
  }

  lemma TailPastLong(s: string, t: string)
    requires |t| >= MAX_TAIL
    ensures Tail(s + t) == Tail(t)
  {
    DropPast(s, t, |s + t| - MAX_TAIL);
  }

  lemma TailPastShort(s: string, t: string)
    requires |s| > MAX_TAIL > |t|
    ensures Tail(Tail(s) + t) == Tail(s + t)
  {
    var cut := |s| - MAX_TAIL;
    DropBefore(s, t, cut + |t|);
    DropBefore(s[cut..], t, |t|);
    assert s[cut..][|t|..] == s[cut + |t|..];
  }

  lemma TailOfTail(s: string, t: string)
    ensures Tail(Tail(s) + t) == Tail(s + t)
  {
    if |t| >= MAX_TAIL {
      TailPastLong(s, t);
      TailPastLong(Tail(s), t);
    } else if |s| > MAX_TAIL {
      TailPastShort(s, t);
    }
  }

  /** A carriage return belongs to no pattern, so it does not matter whether it was dropped. */
  lemma ReturnDecidesNothing(line: string)
    ensures Blocked(line + "\r") <==> Blocked(line)
    ensures forall p | p in PATTERNS :: Contains(Lower(line + "\r"), p) <==> Contains(Lower(line), p)
  {
    LowerJoin(line, "\r");
    assert Lower("\r") == "\r";
    forall p | p in PATTERNS ensures Contains(Lower(line) + "\r", p) <==> Contains(Lower(line), p) {
      PatternsAreShort(p);
      ReturnEndsNoMatch(Lower(line), p);
    }
  }

  lemma ReturnEndsNoMatch(s: string, p: string)
    requires p != "" && '\r' !in p
    ensures Contains(s + "\r", p) <==> Contains(s, p)
  {
    var t := s + "\r";
    forall i | 0 <= i <= |t| && OccursAt(t, p, i) ensures Contains(s, p) {
      assert p[|p| - 1] in p && p[|p| - 1] == t[i..i + |p|][|p| - 1] == t[i + |p| - 1];
      assert s[i..i + |p|] == t[i..i + |p|];
      assert OccursAt(s, p, i);
    }
    forall i | 0 <= i <= |s| && OccursAt(s, p, i) ensures Contains(t, p) {
      assert t[i..i + |p|] == s[i..i + |p|];
      assert OccursAt(t, p, i);
    }
  }

  // ---------------------------------------------------------------------------------------
  // The scanner

  datatype Status = Full | Delimited | BufferFull | EndOfFile | Broken

  datatype Finding = Finding(lineNumber: nat, line: string, pattern: string)

  /** bufio.Reader: parts end at a newline, when the buffer is full, at the end or at an I/O error. */
  class Reader {
    var remaining: string
    const faulty: bool

    constructor (text: string, mayFail: bool)
      ensures remaining == text && faulty == mayFail
    {
      remaining := text;
      faulty := mayFail;
    }

    method ReadSlice() returns (part: string, status: Status)
      modifies this
      ensures part + remaining == old(remaining)
      ensures status in {Delimited, BufferFull, EndOfFile, Broken}
      ensures if status == Delimited then part != "" && part[|part| - 1] == '\n' && '\n' !in part[..|part| - 1]
              else '\n' !in part
      ensures status == BufferFull ==> part != ""
      ensures status == EndOfFile ==> remaining == ""
      ensures status == Broken ==> faulty
    {
      var end := LineEnd(remaining);
      var filled: nat :| filled <= end;
      var failing: bool := *;
      if faulty && failing {
        status := Broken;
      } else if 0 < filled < end || (0 < filled == end && failing) {
        status := BufferFull;
      } else {
        filled, status := end, if end < |remaining| then Delimited else EndOfFile;
      }
      PartOf(remaining, filled, end);
      var size := if status == Delimited then end + 1 else filled;
      part := remaining[..size];
      remaining := remaining[size..];
    }
  }

  lemma PartOf(s: string, filled: nat, end: nat)
    requires filled <= end <= |s| && '\n' !in s[..end]
    ensures '\n' !in s[..filled] && s[..filled] + s[filled..] == s
    ensures end < |s| ==> s[..end + 1][..end] == s[..end] && s[..end + 1] + s[end + 1..] == s
  {
    assert s[..filled] == s[..end][..filled];
  }

  /** matchingBlockedWritePattern: the first listed pattern that occurs. */
  method MatchingPattern(line: string) returns (pattern: Option<string>)
    ensures pattern.Some? <==> Blocked(line)
    ensures pattern.Some? ==> pattern.value in PATTERNS && Contains(Lower(line), pattern.value)
  {
    for i := 0 to |PATTERNS|
      invariant forall j | 0 <= j < i :: !Contains(Lower(line), PATTERNS[j])
    {
      if Contains(Lower(line), PATTERNS[i]) {
        return Some(PATTERNS[i]);
      }
    }
    return None;
  }

  /** The line and its newline as the reader delivered them; a line without newline ends the text. */
  ghost predicate TakesLine(before: string, line: string, after: string) {
    && '\n' !in line
    && (before == line + "\n" + after || (before == line && line != "" && after == ""))
  }

  lemma TakenLine(before: string, line: string, after: string)
    requires TakesLine(before, line, after)
    ensures Lines(before) == [line] + Lines(after)
  {
    LineEndIs(before, |line|);
    assert before[..|line|] == line;
    if before != line {
      assert before[|line| + 1..] == after;
    }
  }

  lemma LineTaken(whole: string, lines: seq<string>, before: string, line: string, after: string)
    requires Lines(whole) == lines + Lines(before) && TakesLine(before, line, after)
    ensures Lines(whole) == lines + [line] + Lines(after) && |after| < |before|
  {
    TakenLine(before, line, after);
    TakenIsShorter(before, line, after);
    Regroup(lines, [line], Lines(after));
  }

  lemma TakenIsShorter(before: string, line: string, after: string)
    requires TakesLine(before, line, after)
    ensures |after| < |before|
  {
  }

  /** What is known of the part of a line read so far. */
  ghost predicate Scanned(line: string, pattern: Option<string>) {
    && (pattern.Some? <==> Blocked(line))
    && (pattern.Some? ==> pattern.value in PATTERNS && Contains(Lower(line), pattern.value))
  }

  method ScanPart(ghost line: string, pattern: Option<string>, tail: string, part: string)
    returns (nextPattern: Option<string>, nextTail: string)
    requires tail == Tail(Lower(line)) && Scanned(line, pattern)
    ensures nextTail == Tail(Lower(line + part)) && Scanned(line + part, nextPattern)
  {
    nextPattern := pattern;
    if pattern.None? {
      nextPattern := MatchingPattern(tail + part);
    }
    PartDecides(line, part);
    if nextPattern.Some? {
      PatternStays(line, part, nextPattern.value);
    }
    NextTail(line, part);
    nextTail := Tail(Lower(tail + part));
  }

  /** readLogLine. */
  method ReadLogLine(reader: Reader) returns (pattern: Option<string>, status: Status, ghost line: string)
    modifies reader
    ensures status in {Full, EndOfFile, Broken}
    ensures status == Broken ==> reader.faulty
    ensures status == EndOfFile ==> old(reader.remaining) == "" && reader.remaining == ""
    ensures status == Full ==>
              TakesLine(old(reader.remaining), line, reader.remaining) && Scanned(line, pattern)
  {
    var tail := "";
    var readAny := false;
    pattern, line := None, "";
    NothingIsClean();
    while true
      invariant line + reader.remaining == old(reader.remaining) && '\n' !in line
      invariant readAny <==> line != ""
      invariant tail == Tail(Lower(line)) && Scanned(line, pattern)
      decreases |reader.remaining|
    {
      var part, err := reader.ReadSlice();
      Regroup(line, part, reader.remaining);
      if err == Delimited {
        var text := StripEnd(part);
        ghost var raw := part[..|part| - 1];
        pattern, tail := ScanPart(line, pattern, tail, text);
        EndOfLine(line, raw, text, pattern);
        WholeLine(line, raw, part, reader.remaining);
        return pattern, Full, line + raw;
      }
      if |part| > 0 {
        readAny := true;
        pattern, tail := ScanPart(line, pattern, tail, part);
        line := line + part;
      }
      if err == EndOfFile {
        return pattern, if readAny then Full else EndOfFile, line;
      } else if err == Broken {
        return None, Broken, line;
      }
    }
  }

  /** The newline and a carriage return just before it in the same part are dropped. */
  method StripEnd(part: string) returns (text: string)
    requires part != "" && part[|part| - 1] == '\n'
    ensures text == part[..|part| - 1] || text + "\r" == part[..|part| - 1]
  {
    text := part[..|part| - 1];
    if |text| > 0 && text[|text| - 1] == '\r' {
      text := text[..|text| - 1];
    }
  }

  lemma EndOfLine(line: string, raw: string, text: string, pattern: Option<string>)
    requires text == raw || text + "\r" == raw
    requires Scanned(line + text, pattern)
    ensures Scanned(line + raw, pattern)
  {
    if text != raw {
      Regroup(line, text, "\r");
      ReturnDecidesNothing(line + text);
    }
  }

  lemma Regroup<T>(a: seq<T>, b: seq<T>, c: seq<T>)
    ensures a + (b + c) == a + b + c
  {
  }

  lemma WholeLine(line: string, raw: string, part: string, rest: string)
    requires '\n' !in line && '\n' !in raw && part != "" && raw == part[..|part| - 1] && part[|part| - 1] == '\n'
    ensures TakesLine(line + part + rest, line + raw, rest)
  {
    Regroup(line, raw, "\n");
    assert part == raw + "\n";
    assert forall c | c in line + raw :: c in line || c in raw;
  }

  lemma NothingIsClean()
    ensures !Blocked("")
  {
    forall p | p in PATTERNS ensures !Contains(Lower(""), p) {
      PatternsAreShort(p);
    }
  }

  /** What a finding says, and that its pattern does occur in its line. */
  ghost predicate Correct(f: Finding, lines: seq<string>) {
    && 1 <= f.lineNumber <= |lines|
    && f.pattern in PATTERNS
    && Contains(Lower(lines[f.lineNumber - 1]), f.pattern)
    && f.line == MARKER + f.pattern
  }

  /** Some finding names line i, counting from 0. */
  ghost predicate Reported(i: nat, findings: seq<Finding>) {
    exists k | 0 <= k < |findings| :: findings[k].lineNumber == i + 1
  }

  /** The findings are exactly the blocked lines, each once, in order. */
  ghost predicate Exactly(findings: seq<Finding>, lines: seq<string>) {
    && (forall k | 0 <= k < |findings| :: Correct(findings[k], lines))
    && (forall j, k | 0 <= j < k < |findings| :: findings[j].lineNumber < findings[k].lineNumber)
    && Complete(findings, lines)
  }

  /** The findings after one more line. */
  function Extended(findings: seq<Finding>, lineNumber: nat, pattern: Option<string>): seq<Finding> {
    if pattern.None? then findings else findings + [Finding(lineNumber, MARKER + pattern.value, pattern.value)]
  }

  lemma CorrectGrows(findings: seq<Finding>, lines: seq<string>, line: string, pattern: Option<string>)
    requires Exactly(findings, lines) && Scanned(line, pattern)
    ensures var next := Extended(findings, |lines| + 1, pattern);
            && (forall k | 0 <= k < |next| :: Correct(next[k], lines + [line]))
            && forall j, k | 0 <= j < k < |next| :: next[j].lineNumber < next[k].lineNumber
  {
    var next := Extended(findings, |lines| + 1, pattern);
    forall k | 0 <= k < |next| ensures Correct(next[k], lines + [line]) {
      if k < |findings| {
        assert next[k] == findings[k] && Correct(findings[k], lines);
      }
    }
  }

  lemma ReportedGrows(findings: seq<Finding>, n: nat, pattern: Option<string>, i: nat)
    ensures Reported(i, Extended(findings, n + 1, pattern)) <==> Reported(i, findings) || (pattern.Some? && i == n)
  {
    var next := Extended(findings, n + 1, pattern);
    assert forall k | 0 <= k < |findings| :: next[k] == findings[k];
    assert pattern.Some? ==> next[|findings|].lineNumber == n + 1;
  }

  lemma ReportsAreInRange(findings: seq<Finding>, lines: seq<string>, i: nat)
    requires (forall k | 0 <= k < |findings| :: Correct(findings[k], lines)) && Reported(i, findings)
    ensures i < |lines|
  {
    var k :| 0 <= k < |findings| && findings[k].lineNumber == i + 1;
    assert Correct(findings[k], lines);
  }

  /** Every blocked line is reported, and no other. */
  ghost predicate Complete(findings: seq<Finding>, lines: seq<string>) {
    forall i | 0 <= i < |lines| :: Blocked(lines[i]) <==> Reported(i, findings)
  }

  lemma CompleteGrows(
    lines: seq<string>, line: string, findings: seq<Finding>, pattern: Option<string>, next: seq<Finding>)
    requires Complete(findings, lines) && (pattern.Some? <==> Blocked(line))
    requires forall i | 0 <= i <= |lines| ::
               Reported(i, next) <==> if i < |lines| then Reported(i, findings) else pattern.Some?
    ensures Complete(next, lines + [line])
  {
    var all := lines + [line];
    forall i | 0 <= i < |all| ensures Blocked(all[i]) <==> Reported(i, next) {
      assert all[i] == if i < |lines| then lines[i] else line;
    }
  }

  lemma ReportsGrow(findings: seq<Finding>, lines: seq<string>, pattern: Option<string>, i: nat)
    requires (forall k | 0 <= k < |findings| :: Correct(findings[k], lines)) && i <= |lines|
    ensures Reported(i, Extended(findings, |lines| + 1, pattern))
            <==> if i < |lines| then Reported(i, findings) else pattern.Some?
  {
    ReportedGrows(findings, |lines|, pattern, i);
    if Reported(i, findings) {
      ReportsAreInRange(findings, lines, i);
    }
  }

  lemma ExactlyGrows(findings: seq<Finding>, lines: seq<string>, line: string, pattern: Option<string>)
    requires Exactly(findings, lines) && Scanned(line, pattern)
    ensures Exactly(Extended(findings, |lines| + 1, pattern), lines + [line])
  {
    var next := Extended(findings, |lines| + 1, pattern);
    CorrectGrows(findings, lines, line, pattern);
    forall i | 0 <= i <= |lines|
      ensures Reported(i, next) <==> if i < |lines| then Reported(i, findings) else pattern.Some?
    {
      ReportsGrow(findings, lines, pattern, i);
    }
    CompleteGrows(lines, line, findings, pattern, next);
  }

  /** ScanServerLog: whatever the parts, exactly the blocked lines of the text are reported. */
  method ScanServerLog(reader: Reader) returns (findings: Option<seq<Finding>>)
    modifies reader
    ensures !reader.faulty ==> findings.Some?
    ensures findings.Some? ==> Exactly(findings.value, Lines(old(reader.remaining)))
  {
    var found: seq<Finding> := [];
    var lineNumber := 0;
    ghost var lines: seq<string> := [];
    while true
      invariant Lines(old(reader.remaining)) == lines + Lines(reader.remaining)
      invariant lineNumber == |lines| && Exactly(found, lines)
      decreases |reader.remaining|
    {
      ghost var before := reader.remaining;
      var pattern, status, line := ReadLogLine(reader);
      if status == EndOfFile {
        return Some(found);
      }
      if status == Broken {
        return None;
      }
      lineNumber := lineNumber + 1;
      ghost var previous := found;
      if pattern.Some? {
        found := found + [Finding(lineNumber, MARKER + pattern.value, pattern.value)];
      }
      LineTaken(old(reader.remaining), lines, before, line, reader.remaining);
      ExactlyGrows(previous, lines, line, pattern);
      lines := lines + [line];
    }
  }
}
