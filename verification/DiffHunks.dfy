/** Parsing the output of `git diff --unified=0` into hunks per file. */
module DiffHunks {
  import opened Decimal
  import opened Seqs
  import opened Lines

  // ---------------------------------------------------------------------------------------------
  // Hunk headers
  // ---------------------------------------------------------------------------------------------

  predicate StartsWith(s: string, prefix: string) {
    prefix <= s
  }

  function DigitRun(s: string): (n: nat)
    ensures n <= |s| && forall i :: 0 <= i < n ==> IsDigit(s[i])
  {
    if s == "" || !IsDigit(s[0]) then 0 else 1 + DigitRun(s[1..])
  }

  /** Skips an optional comma and count. */
  function SkipCount(s: string): string {
    if StartsWith(s, ",") && DigitRun(s[1..]) > 0 then s[1..][DigitRun(s[1..])..] else s
  }

  /** Start lines of a hunk header; the counts are optional and ignored. */
  function ParseHeader(line: string): Option<(nat, nat)> {
    if !StartsWith(line, "@@ -") then None
    else
      match ParseRange(line[4..])
      case None => None
      case Some((before, rest)) =>
        if !StartsWith(rest, " +") then None
        else
          match ParseRange(rest[2..])
          case None => None
          case Some((after, tail)) => if StartsWith(tail, " @@") then Some((before, after)) else None
  }

  /** A start line and what follows its optional count. */
  function ParseRange(s: string): Option<(nat, string)> {
    var n := DigitRun(s);
    if n == 0 then None else Some((Number(s[..n]), SkipCount(s[n..])))
  }

  /** A count of one is not printed. */
  function CountText(n: nat): string {
    if n == 1 then "" else "," + Digits(n)
  }

  function HeaderText(beforeStart: nat, beforeCount: nat, afterStart: nat, afterCount: nat, heading: string): string {
    "@@ -" + (Digits(beforeStart) + (CountText(beforeCount) + (" +" + (Digits(afterStart) + (CountText(afterCount) + (" @@" + heading))))))
  }

  lemma {:induction false} DigitRunIs(d: string, rest: string)
    requires forall i :: 0 <= i < |d| ==> IsDigit(d[i])
    requires rest == "" || !IsDigit(rest[0])
    ensures DigitRun(d + rest) == |d| && (d + rest)[..|d|] == d && (d + rest)[|d|..] == rest
  {
    if d == "" {
      assert d + rest == rest;
    } else {
      DigitRunIs(d[1..], rest);
      assert (d + rest)[1..] == d[1..] + rest;
    }
  }

  lemma {:induction false} SkipCountIs(n: nat, rest: string)
    requires rest != "" && rest[0] == ' '
    ensures SkipCount(CountText(n) + rest) == rest
    ensures CountText(n) + rest != "" && !IsDigit((CountText(n) + rest)[0])
  {
    if n != 1 {
      var s := CountText(n) + rest;
      assert s[1..] == Digits(n) + rest;
      DigitRunIs(Digits(n), rest);
    } else {
      assert CountText(n) + rest == rest;
    }
  }

  /** The header parser inverts the header printer, whatever the counts and the heading. */
  lemma {:induction false} HeaderRoundTrip(bs: nat, bn: nat, afs: nat, afn: nat, heading: string)
    ensures ParseHeader(HeaderText(bs, bn, afs, afn, heading)) == Some((bs, afs))
  {
    var t6 := " @@" + heading;
    var t4 := Digits(afs) + (CountText(afn) + t6);
    var t3 := " +" + t4;
    var t1 := Digits(bs) + (CountText(bn) + t3);
    var line := "@@ -" + t1;
    assert HeaderText(bs, bn, afs, afn, heading) == line && line[4..] == t1 && t3[2..] == t4;
    RangeParses(bs, bn, t3);
    RangeParses(afs, afn, t6);
  }

  /** A start line and its count are read back, whether the count is printed or not. */
  lemma {:induction false} RangeParses(start: nat, count: nat, rest: string)
    requires rest != "" && rest[0] == ' '
    ensures ParseRange(Digits(start) + (CountText(count) + rest)) == Some((start, rest))
  {
    SkipCountIs(count, rest);
    DigitRunIs(Digits(start), CountText(count) + rest);
    NumberOfDigits(start);
  }

  ghost predicate AllDigits(s: string) {
    forall i :: 0 <= i < |s| ==> IsDigit(s[i])
  }

  /** Nothing, or a comma and a number. */
  ghost predicate IsCount(c: string) {
    c == "" || (|c| > 1 && c[0] == ',' && AllDigits(c[1..]))
  }

  /** A start line, with or without a count. */
  ghost predicate IsRange(start: string, c: string) {
    start != "" && AllDigits(start) && IsCount(c)
  }

  /** The line starts with a hunk header: two at signs, both ranges with their signs, two at signs. */
  ghost predicate IsHeader(line: string, before: string, c: string, after: string, d: string, heading: string) {
    && line == "@@ -" + (before + (c + (" +" + (after + (d + (" @@" + heading))))))
    && IsRange(before, c) && IsRange(after, d)
  }

  lemma {:induction false} SkipCountSplits(t: string) returns (c: string)
    ensures IsCount(c) && t == c + SkipCount(t)
  {
    if StartsWith(t, ",") && DigitRun(t[1..]) > 0 {
      var n := DigitRun(t[1..]);
      c := t[..n + 1];
      assert c[1..] == t[1..][..n];
    } else {
      c := "";
    }
  }

  lemma {:induction false} RangeReads(start: string, c: string, rest: string)
    requires IsRange(start, c) && rest != "" && rest[0] == ' '
    ensures ParseRange(start + (c + rest)) == Some((Number(start), rest))
  {
    DigitRunIs(start, c + rest);
    if c != "" {
      assert (c + rest)[1..] == c[1..] + rest;
      DigitRunIs(c[1..], rest);
    } else {
      assert c + rest == rest;
    }
  }

  lemma {:induction false} RangeSplits(s: string) returns (start: string, c: string)
    requires ParseRange(s).Some?
    ensures IsRange(start, c) && Number(start) == ParseRange(s).value.0 && s == start + (c + ParseRange(s).value.1)
  {
    start := s[..DigitRun(s)];
    c := SkipCountSplits(s[DigitRun(s)..]);
    assert s == start + s[DigitRun(s)..];
  }

  lemma {:induction false} BothRanges(first: string, second: string, heading: string, x: nat, y: nat)
    requires ParseRange(first) == Some((x, " +" + second)) && ParseRange(second) == Some((y, " @@" + heading))
    ensures ParseHeader("@@ -" + first) == Some((x, y))
  {
    assert ("@@ -" + first)[4..] == first && (" +" + second)[2..] == second;
  }

  lemma {:induction false} HeaderReads(before: string, c: string, after: string, d: string, heading: string)
    requires IsRange(before, c) && IsRange(after, d)
    ensures ParseHeader("@@ -" + (before + (c + (" +" + (after + (d + (" @@" + heading)))))))
            == Some((Number(before), Number(after)))
  {
    var second := after + (d + (" @@" + heading));
    RangeReads(before, c, " +" + second);
    RangeReads(after, d, " @@" + heading);
    BothRanges(before + (c + (" +" + second)), second, heading, Number(before), Number(after));
  }

  lemma {:induction false} RangesOf(line: string) returns (first: string, second: string, heading: string, x: nat, y: nat)
    requires ParseHeader(line).Some?
    ensures line == "@@ -" + first && ParseHeader(line) == Some((x, y))
    ensures ParseRange(first) == Some((x, " +" + second)) && ParseRange(second) == Some((y, " @@" + heading))
  {
    first := line[4..];
    var rest := ParseRange(first).value.1;
    second := rest[2..];
    var tail := ParseRange(second).value.1;
    heading := tail[3..];
    x, y := ParseRange(first).value.0, ParseRange(second).value.0;
    assert rest == " +" + second && tail == " @@" + heading;
  }

  lemma {:induction false} HeaderSplits(line: string) returns (before: string, c: string, after: string, d: string, heading: string)
    requires ParseHeader(line).Some?
    ensures IsHeader(line, before, c, after, d, heading)
    ensures ParseHeader(line) == Some((Number(before), Number(after)))
  {
    var first, second, h, x, y := RangesOf(line);
    heading := h;
    before, c := RangeSplits(first);
    after, d := RangeSplits(second);
  }

  /** A line is read as a hunk header exactly when it starts with one, and the numbers are its two start lines. */
  lemma {:induction false} ParseHeaderIff(line: string, x: nat, y: nat)
    ensures ParseHeader(line) == Some((x, y))
            <==> exists before, c, after, d, heading ::
                   IsHeader(line, before, c, after, d, heading) && Number(before) == x && Number(after) == y
  {
    if ParseHeader(line) == Some((x, y)) {
      var before, c, after, d, heading := HeaderSplits(line);
    }
    forall before, c, after, d, heading | IsHeader(line, before, c, after, d, heading)
      ensures ParseHeader(line) == Some((Number(before), Number(after)))
    {
      HeaderReads(before, c, after, d, heading);
    }
  }

  // ---------------------------------------------------------------------------------------------
  // The parser
  // ---------------------------------------------------------------------------------------------

  datatype Hunk = Hunk(before: seq<string>, after: seq<string>, beforeStart: nat, afterStart: nat)

  /** Files in order of first appearance. */
  type FileHunks = seq<(string, seq<Hunk>)>

  /** `current` is empty while no file is known. */
  datatype State = State(files: FileHunks, current: string, before: seq<string>, after: seq<string>,
                         beforeStart: nat, afterStart: nat)

  function AddHunk(files: FileHunks, name: string, h: Hunk): FileHunks {
    if files == [] then [(name, [h])]
    else if files[0].0 == name then [(name, files[0].1 + [h])] + files[1..]
    else [files[0]] + AddHunk(files[1..], name, h)
  }

  /** The files once the pending hunk is recorded; without a file or without lines there is none. */
  function Flush(s: State): FileHunks {
    if s.current == "" || (s.before == [] && s.after == []) then s.files
    else AddHunk(s.files, s.current, Hunk(s.before, s.after, s.beforeStart, s.afterStart))
  }

  function StepLine(s: State, line: string): State {
    if StartsWith(line, "diff --git ") then State(Flush(s), "", [], [], 0, 0)
    else
      var header := ParseHeader(line);
      if header.Some? then State(Flush(s), s.current, [], [], header.value.0, header.value.1)
      else if StartsWith(line, "+++ b/") then s.(current := line[6..])
      else if StartsWith(line, "--- a/") then s
      else if StartsWith(line, "-") && !StartsWith(line, "--- ") then s.(before := s.before + [line[1..]])
      else if StartsWith(line, "+") && !StartsWith(line, "+++ ") then s.(after := s.after + [line[1..]])
      else s
  }

  const START := State([], "", [], [], 0, 0)

  function Run(s: State, lines: seq<string>): State
    decreases |lines|
  {
    if lines == [] then s else Run(StepLine(s, lines[0]), lines[1..])
  }

  method UpdateHunks(files: FileHunks, name: string, h: Hunk) returns (r: FileHunks)
    ensures r == AddHunk(files, name, h)
  {
    var i := 0;
    while i < |files| && files[i].0 != name
      invariant 0 <= i <= |files|
      invariant AddHunk(files, name, h) == files[..i] + AddHunk(files[i..], name, h)
    {
      AddFurther(files, i, name, h);
      i := i + 1;
    }
    if i < |files| {
      r := files[..i] + [(name, files[i].1 + [h])] + files[i + 1..];
      AddHere(files, i, name, h);
    } else {
      r := files + [(name, [h])];
    }
  }

  lemma {:induction false} AddFurther(files: FileHunks, i: nat, name: string, h: Hunk)
    requires i < |files| && files[i].0 != name
    ensures files[..i] + AddHunk(files[i..], name, h) == files[..i + 1] + AddHunk(files[i + 1..], name, h)
  {
    var rest := AddHunk(files[i + 1..], name, h);
    assert files[i..][1..] == files[i + 1..];
    assert AddHunk(files[i..], name, h) == [files[i]] + rest;
    assert files[..i + 1] == files[..i] + [files[i]];
    assert files[..i] + ([files[i]] + rest) == files[..i] + [files[i]] + rest;
  }

  lemma {:induction false} AddHere(files: FileHunks, i: nat, name: string, h: Hunk)
    requires i < |files| && files[i].0 == name
    ensures files[..i] + AddHunk(files[i..], name, h) == files[..i] + [(name, files[i].1 + [h])] + files[i + 1..]
  {
    var added := [(name, files[i].1 + [h])];
    assert files[i..][1..] == files[i + 1..];
    assert AddHunk(files[i..], name, h) == added + files[i + 1..];
    assert files[..i] + (added + files[i + 1..]) == files[..i] + added + files[i + 1..];
  }

  /** The parser over mutable state; every line either closes the pending hunk or extends it. */
  method GitDiffHunks(raw: string) returns (files: FileHunks)
    ensures files == Flush(Run(START, Split(raw)))
  {
    files := [];
    var current, before, after, beforeStart: nat, afterStart: nat := "", [], [], 0, 0;
    var lines := Split(raw);
    for i := 0 to |lines|
      invariant Run(State(files, current, before, after, beforeStart, afterStart), lines[i..]) == Run(START, lines)
    {
      var line := lines[i];
      assert lines[i..][1..] == lines[i + 1..];
      var header := ParseHeader(line);
      if StartsWith(line, "diff --git ") {
        if current != "" && !(before == [] && after == []) {
          files := UpdateHunks(files, current, Hunk(before, after, beforeStart, afterStart));
        }
        current, before, after, beforeStart, afterStart := "", [], [], 0, 0;
      } else if header.Some? {
        if current != "" && !(before == [] && after == []) {
          files := UpdateHunks(files, current, Hunk(before, after, beforeStart, afterStart));
        }
        before, after, beforeStart, afterStart := [], [], header.value.0, header.value.1;
      } else if StartsWith(line, "+++ b/") || StartsWith(line, "--- a/") {
        if StartsWith(line, "+++ b/") {
          current := line[6..];
        }
      } else if StartsWith(line, "-") && !StartsWith(line, "--- ") {
        before := before + [line[1..]];
      } else if StartsWith(line, "+") && !StartsWith(line, "+++ ") {
        after := after + [line[1..]];
      }
    }
    if current != "" && !(before == [] && after == []) {
      files := UpdateHunks(files, current, Hunk(before, after, beforeStart, afterStart));
    }
  }

  // ---------------------------------------------------------------------------------------------
  // The printer
  // ---------------------------------------------------------------------------------------------

  /** One hunk as git prints it; the flags say whether a side ends without a newline. */
  datatype HunkText = HunkText(hunk: Hunk, heading: string, beforeNoEol: bool, afterNoEol: bool)

  /** One file as it is printed: its title, the labels of both sides, and the rest line by line. */
  datatype FileDiff = FileDiff(title: string, oldLabel: string, newLabel: string, extended: seq<string>, hunks: seq<HunkText>)

  function Prefixed(prefix: char, lines: seq<string>): seq<string> {
    if lines == [] then [] else [[prefix] + lines[0]] + Prefixed(prefix, lines[1..])
  }

  function NoEol(flag: bool): seq<string> {
    if flag then ["\\ No newline at end of file"] else []
  }

  function HunkBody(h: HunkText): seq<string> {
    Prefixed('-', h.hunk.before) + NoEol(h.beforeNoEol) + (Prefixed('+', h.hunk.after) + NoEol(h.afterNoEol))
  }

  function HunkHeader(h: HunkText): string {
    HeaderText(h.hunk.beforeStart, |h.hunk.before|, h.hunk.afterStart, |h.hunk.after|, h.heading)
  }

  function HunkLines(hunks: seq<HunkText>): seq<string> {
    if hunks == [] then [] else [HunkHeader(hunks[0])] + HunkBody(hunks[0]) + HunkLines(hunks[1..])
  }

  function SideLines(f: FileDiff): seq<string> {
    ["--- " + f.oldLabel, "+++ " + f.newLabel]
  }

  /** A file without hunks prints its header and extended lines only. */
  function FileLines(f: FileDiff): seq<string> {
    ["diff --git " + f.title] + (f.extended + if f.hunks == [] then [] else SideLines(f) + HunkLines(f.hunks))
  }

  function DiffLines(files: seq<FileDiff>): seq<string> {
    if files == [] then [] else FileLines(files[0]) + DiffLines(files[1..])
  }

  /** The text git prints: every line ended by a line feed. */
  function DiffText(files: seq<FileDiff>): string {
    Join(DiffLines(files) + [""], "\n")
  }

  // ---------------------------------------------------------------------------------------------
  // Round trip
  // ---------------------------------------------------------------------------------------------

  /** A line the parser ignores in every state. */
  ghost predicate Inert(line: string) {
    (line == "" || (line[0] != '+' && line[0] != '-' && line[0] != '@')) && !StartsWith(line, "diff --git ")
  }

  const NO_FILE := "/dev/null"

  /** The file still exists and has hunks. */
  predicate Shown(f: FileDiff) {
    f.newLabel != NO_FILE && f.hunks != []
  }

  /** The name the parser reads off the label of the new side. */
  function SeenName(f: FileDiff): string {
    if StartsWith(f.newLabel, "b/") then f.newLabel[2..] else ""
  }

  /** What git prints: only known kinds of extended lines, no empty hunk, and no added lines in a
      deleted file. */
  ghost predicate Printable(f: FileDiff) {
    && (forall i :: 0 <= i < |f.extended| ==> Inert(f.extended[i]))
    && (forall i :: 0 <= i < |f.hunks| ==> f.hunks[i].hunk.before != [] || f.hunks[i].hunk.after != [])
    && (f.newLabel == NO_FILE ==> forall i :: 0 <= i < |f.hunks| ==> f.hunks[i].hunk.after == [])
  }

  ghost predicate NoneStarts(lines: seq<string>, prefix: string) {
    forall i :: 0 <= i < |lines| ==> !StartsWith(lines[i], prefix)
  }

  ghost predicate CleanHunk(h: HunkText) {
    NoneStarts(h.hunk.before, "-- ") && NoneStarts(h.hunk.after, "++ ")
  }

  ghost predicate CleanHunks(hunks: seq<HunkText>) {
    forall i :: 0 <= i < |hunks| ==> CleanHunk(hunks[i])
  }

  /** The parser can tell the file's name and all its lines.  Deleted files are dropped, so theirs do
      not matter. */
  ghost predicate CleanFile(f: FileDiff) {
    Shown(f) ==> SeenName(f) != "" && CleanHunks(f.hunks)
  }

  function HunksOf(hunks: seq<HunkText>): (r: seq<Hunk>)
    ensures |r| == |hunks|
  {
    if hunks == [] then [] else [hunks[0].hunk] + HunksOf(hunks[1..])
  }

  /** The hunks of every file that still exists, in order, under the names on the labels. */
  function Listed(files: seq<FileDiff>): FileHunks {
    if files == [] then []
    else (if Shown(files[0]) then [(SeenName(files[0]), HunksOf(files[0].hunks))] else []) + Listed(files[1..])
  }

  lemma {:induction false} RunAppend(s: State, a: seq<string>, b: seq<string>)
    ensures Run(s, a + b) == Run(Run(s, a), b)
    decreases |a|
  {
    if a == [] {
      assert a + b == b;
    } else {
      assert (a + b)[1..] == a[1..] + b;
      RunAppend(StepLine(s, a[0]), a[1..], b);
    }
  }

  lemma {:induction false} RunOne(s: State, line: string)
    ensures Run(s, [line]) == StepLine(s, line)
  {
    assert [line][1..] == [];
  }

  lemma {:induction false} InertStep(s: State, line: string)
    requires Inert(line)
    ensures StepLine(s, line) == s
  {
  }

  lemma {:induction false} RunInert(s: State, lines: seq<string>)
    requires forall i :: 0 <= i < |lines| ==> Inert(lines[i])
    ensures Run(s, lines) == s
    decreases |lines|
  {
    if lines != [] {
      InertStep(s, lines[0]);
      RunInert(s, lines[1..]);
    }
  }

  /** A removed line is recorded unless its content starts with two dashes and a space. */
  lemma {:induction false} BeforeStep(s: State, l: string)
    ensures StepLine(s, ['-'] + l) == if StartsWith(l, "-- ") then s else s.(before := s.before + [l])
  {
    var line := ['-'] + l;
    assert line[0] == '-' && line[1..] == l;
    assert StartsWith(l, "-- ") <==> StartsWith(line, "--- ");
  }

  /** An added line is recorded unless its content starts with two pluses and a space. */
  lemma {:induction false} AfterStep(s: State, l: string)
    ensures !StartsWith(l, "++ ") ==> StepLine(s, ['+'] + l) == s.(after := s.after + [l])
  {
    var line := ['+'] + l;
    assert line[0] == '+' && line[1..] == l;
    assert StartsWith(l, "++ ") <==> StartsWith(line, "+++ ");
  }

  lemma {:induction false} RunBefore(s: State, lines: seq<string>)
    requires NoneStarts(lines, "-- ")
    ensures Run(s, Prefixed('-', lines)) == s.(before := s.before + lines)
    decreases |lines|
  {
    if lines != [] {
      BeforeStep(s, lines[0]);
      RunBefore(s.(before := s.before + [lines[0]]), lines[1..]);
      assert s.before + [lines[0]] + lines[1..] == s.before + lines;
    } else {
      assert s.before + lines == s.before;
    }
  }

  lemma {:induction false} RunAfter(s: State, lines: seq<string>)
    requires NoneStarts(lines, "++ ")
    ensures Run(s, Prefixed('+', lines)) == s.(after := s.after + lines)
    decreases |lines|
  {
    if lines != [] {
      AfterStep(s, lines[0]);
      RunAfter(s.(after := s.after + [lines[0]]), lines[1..]);
      assert s.after + [lines[0]] + lines[1..] == s.after + lines;
    } else {
      assert s.after + lines == s.after;
    }
  }

  lemma {:induction false} HeaderStep(s: State, h: HunkText)
    ensures StepLine(s, HunkHeader(h)) == State(Flush(s), s.current, [], [], h.hunk.beforeStart, h.hunk.afterStart)
  {
    HeaderRoundTrip(h.hunk.beforeStart, |h.hunk.before|, h.hunk.afterStart, |h.hunk.after|, h.heading);
    assert HunkHeader(h)[0] == '@';
  }

  lemma {:induction false} RunRemoved(s: State, h: HunkText)
    requires NoneStarts(h.hunk.before, "-- ") && s.before == []
    ensures Run(s, Prefixed('-', h.hunk.before) + NoEol(h.beforeNoEol)) == s.(before := h.hunk.before)
  {
    RunBefore(s, h.hunk.before);
    assert s.before + h.hunk.before == h.hunk.before;
    RunInert(s.(before := h.hunk.before), NoEol(h.beforeNoEol));
    RunAppend(s, Prefixed('-', h.hunk.before), NoEol(h.beforeNoEol));
  }

  lemma {:induction false} RunAdded(s: State, h: HunkText)
    requires NoneStarts(h.hunk.after, "++ ") && s.after == []
    ensures Run(s, Prefixed('+', h.hunk.after) + NoEol(h.afterNoEol)) == s.(after := h.hunk.after)
  {
    RunAfter(s, h.hunk.after);
    assert s.after + h.hunk.after == h.hunk.after;
    RunInert(s.(after := h.hunk.after), NoEol(h.afterNoEol));
    RunAppend(s, Prefixed('+', h.hunk.after), NoEol(h.afterNoEol));
  }

  lemma {:induction false} RunHunk(s: State, h: HunkText)
    requires CleanHunk(h)
    ensures Run(s, [HunkHeader(h)] + HunkBody(h))
            == State(Flush(s), s.current, h.hunk.before, h.hunk.after, h.hunk.beforeStart, h.hunk.afterStart)
  {
    HeaderStep(s, h);
    RunOne(s, HunkHeader(h));
    var s1 := StepLine(s, HunkHeader(h));
    var removed, added := Prefixed('-', h.hunk.before) + NoEol(h.beforeNoEol), Prefixed('+', h.hunk.after) + NoEol(h.afterNoEol);
    RunAppend(s, [HunkHeader(h)], removed + added);
    RunAppend(s1, removed, added);
    RunRemoved(s1, h);
    RunAdded(s1.(before := h.hunk.before), h);
  }

  function AddAll(files: FileHunks, name: string, hunks: seq<Hunk>): FileHunks
    decreases |hunks|
  {
    if hunks == [] then files else AddAll(AddHunk(files, name, hunks[0]), name, hunks[1..])
  }

  lemma {:induction false} RunHunks(s: State, hunks: seq<HunkText>)
    requires s.current != "" && CleanHunks(hunks)
    requires forall i :: 0 <= i < |hunks| ==> hunks[i].hunk.before != [] || hunks[i].hunk.after != []
    ensures Flush(Run(s, HunkLines(hunks))) == AddAll(Flush(s), s.current, HunksOf(hunks))
    decreases |hunks|
  {
    if hunks != [] {
      RunHunk(s, hunks[0]);
      RunAppend(s, [HunkHeader(hunks[0])] + HunkBody(hunks[0]), HunkLines(hunks[1..]));
      var h := hunks[0].hunk;
      RunHunks(State(Flush(s), s.current, h.before, h.after, h.beforeStart, h.afterStart), hunks[1..]);
    }
  }

  ghost predicate Unknown(files: FileHunks, name: string) {
    forall i :: 0 <= i < |files| ==> files[i].0 != name
  }

  lemma {:induction false} AddToEnd(files: FileHunks, name: string, known: seq<Hunk>, h: Hunk)
    requires Unknown(files, name)
    ensures AddHunk(files, name, h) == files + [(name, [h])]
    ensures AddHunk(files + [(name, known)], name, h) == files + [(name, known + [h])]
  {
    if files != [] {
      AddToEnd(files[1..], name, known, h);
      assert (files + [(name, known)])[1..] == files[1..] + [(name, known)];
    }
  }

  lemma {:induction false} AddAllToEnd(files: FileHunks, name: string, known: seq<Hunk>, hunks: seq<Hunk>)
    requires Unknown(files, name)
    ensures AddAll(files + [(name, known)], name, hunks) == files + [(name, known + hunks)]
    decreases |hunks|
  {
    if hunks != [] {
      AddToEnd(files, name, known, hunks[0]);
      AddAllToEnd(files, name, known + [hunks[0]], hunks[1..]);
      assert known + [hunks[0]] + hunks[1..] == known + hunks;
    } else {
      assert known + hunks == known;
    }
  }

  lemma {:induction false} AddAllNew(files: FileHunks, name: string, hunks: seq<Hunk>)
    requires Unknown(files, name) && hunks != []
    ensures AddAll(files, name, hunks) == files + [(name, hunks)]
  {
    AddToEnd(files, name, [], hunks[0]);
    AddAllToEnd(files, name, [hunks[0]], hunks[1..]);
    assert [hunks[0]] + hunks[1..] == hunks;
  }

  /** Header, extended lines and side lines leave a state that knows the file and nothing else. */
  lemma {:induction false} RunPreamble(s: State, f: FileDiff, rest: seq<string>)
    requires Printable(f)
    ensures Run(s, ["diff --git " + f.title] + (f.extended + (SideLines(f) + rest)))
            == Run(State(Flush(s), SeenName(f), [], [], 0, 0), rest)
  {
    RunTitle(s, f, SideLines(f) + rest);
    var reset := State(Flush(s), "", [], [], 0, 0);
    RunSides(reset, f);
    RunAppend(reset, SideLines(f), rest);
  }

  /** Title and extended lines close the file before and name none. */
  lemma {:induction false} RunTitle(s: State, f: FileDiff, rest: seq<string>)
    requires Printable(f)
    ensures Run(s, ["diff --git " + f.title] + (f.extended + rest)) == Run(State(Flush(s), "", [], [], 0, 0), rest)
  {
    var first := "diff --git " + f.title;
    var reset := State(Flush(s), "", [], [], 0, 0);
    RunOne(s, first);
    RunAppend(s, [first], f.extended + rest);
    RunInert(reset, f.extended);
    RunAppend(reset, f.extended, rest);
  }

  lemma {:induction false} RunSides(s: State, f: FileDiff)
    requires s.current == ""
    ensures Run(s, SideLines(f)) == s.(current := SeenName(f))
  {
    var sides := SideLines(f);
    StepSides(s, f);
    RunOne(s, sides[1]);
    assert sides[1..] == [sides[1]];
  }

  lemma {:induction false} StepSides(s: State, f: FileDiff)
    ensures StepLine(s, SideLines(f)[0]) == s
    ensures StepLine(s, SideLines(f)[1]) == if StartsWith(f.newLabel, "b/") then s.(current := SeenName(f)) else s
  {
    var sides := SideLines(f);
    StepOldSide(s, sides[0]);
    assert sides[1][4..] == f.newLabel;
    StepNewSide(s, sides[1]);
  }

  lemma {:induction false} StepOldSide(s: State, line: string)
    requires StartsWith(line, "--- ")
    ensures StepLine(s, line) == s
  {
    assert line[0] == '-';
  }

  lemma {:induction false} StepNewSide(s: State, line: string)
    requires StartsWith(line, "+++ ")
    ensures StepLine(s, line) == if StartsWith(line[4..], "b/") then s.(current := line[4..][2..]) else s
  {
    assert line[0] == '+';
    assert StartsWith(line[4..], "b/") <==> StartsWith(line, "+++ b/");
  }

  /** A clean file that still exists contributes its hunks, in order, with their start lines. */
  lemma {:induction false} RunCleanFile(s: State, f: FileDiff)
    requires Printable(f) && Shown(f) && CleanFile(f)
    ensures Flush(Run(s, FileLines(f))) == AddAll(Flush(s), SeenName(f), HunksOf(f.hunks))
    ensures Unknown(Flush(s), SeenName(f)) ==>
              Flush(Run(s, FileLines(f))) == Flush(s) + [(SeenName(f), HunksOf(f.hunks))]
  {
    RunPreamble(s, f, HunkLines(f.hunks));
    RunHunks(State(Flush(s), SeenName(f), [], [], 0, 0), f.hunks);
    if Unknown(Flush(s), SeenName(f)) {
      AddAllNew(Flush(s), SeenName(f), HunksOf(f.hunks));
    }
  }

  /** Without a file name nothing is ever recorded. */
  lemma {:induction false} RunNameless(s: State, lines: seq<string>)
    requires s.current == "" && NoneStarts(lines, "+++ b/")
    ensures Flush(Run(s, lines)) == s.files && Run(s, lines).current == ""
    decreases |lines|
  {
    if lines != [] {
      RunNameless(StepLine(s, lines[0]), lines[1..]);
    }
  }

  lemma {:induction false} RemovalsName(hunks: seq<HunkText>)
    requires forall i :: 0 <= i < |hunks| ==> hunks[i].hunk.after == []
    ensures NoneStarts(HunkLines(hunks), "+++ b/")
  {
    if hunks != [] {
      RemovalsName(hunks[1..]);
      HunkNames(hunks[0]);
      NoneStartsAppend([HunkHeader(hunks[0])] + HunkBody(hunks[0]), HunkLines(hunks[1..]), "+++ b/");
    }
  }

  /** A hunk names no file unless an added line starts with two pluses and a space. */
  lemma {:induction false} HunkNames(h: HunkText)
    requires NoneStarts(h.hunk.after, "++ ")
    ensures NoneStarts([HunkHeader(h)] + HunkBody(h), "+++ b/")
  {
    NoRemovalStarts(h.hunk.before);
    PrefixedStarts('+', h.hunk.after);
    forall i | 0 <= i < |h.hunk.after| ensures !StartsWith(Prefixed('+', h.hunk.after)[i], "+++ b/") {
      AdditionNames(h.hunk.after[i]);
    }
    assert HunkHeader(h)[0] == '@';
    assert NoneStarts(NoEol(h.beforeNoEol), "+++ b/") && NoneStarts(NoEol(h.afterNoEol), "+++ b/") by {
      assert "\\ No newline at end of file"[0] == '\\';
    }
    NoneStartsAppend(Prefixed('-', h.hunk.before), NoEol(h.beforeNoEol), "+++ b/");
    NoneStartsAppend(Prefixed('+', h.hunk.after), NoEol(h.afterNoEol), "+++ b/");
    NoneStartsAppend(Prefixed('-', h.hunk.before) + NoEol(h.beforeNoEol), Prefixed('+', h.hunk.after) + NoEol(h.afterNoEol), "+++ b/");
    NoneStartsAppend([HunkHeader(h)], HunkBody(h), "+++ b/");
  }

  lemma {:induction false} AdditionNames(l: string)
    ensures StartsWith(['+'] + l, "+++ b/") ==> StartsWith(l, "++ ")
  {
    var line := ['+'] + l;
    assert line[1..] == l;
    assert StartsWith(line, "+++ b/") ==> line[1..4] == "++ ";
  }

  lemma {:induction false} NoneStartsAppend(a: seq<string>, b: seq<string>, prefix: string)
    requires NoneStarts(a, prefix) && NoneStarts(b, prefix)
    ensures NoneStarts(a + b, prefix)
  {
  }

  lemma {:induction false} PrefixedStarts(c: char, lines: seq<string>)
    ensures |Prefixed(c, lines)| == |lines|
    ensures forall i :: 0 <= i < |lines| ==> Prefixed(c, lines)[i] == [c] + lines[i]
  {
    if lines != [] {
      PrefixedStarts(c, lines[1..]);
    }
  }

  lemma {:induction false} NoRemovalStarts(lines: seq<string>)
    ensures NoneStarts(Prefixed('-', lines), "+++ b/")
  {
    PrefixedStarts('-', lines);
    forall i | 0 <= i < |lines| ensures !StartsWith(Prefixed('-', lines)[i], "+++ b/") {
      assert (['-'] + lines[i])[0] == '-';
    }
  }

  /** A deleted file contributes nothing, whatever its lines contain. */
  lemma {:induction false} RunDeletedFile(s: State, f: FileDiff)
    requires Printable(f) && !Shown(f)
    ensures Flush(Run(s, FileLines(f))) == Flush(s)
  {
    if f.hunks == [] {
      RunTitle(s, f, []);
    } else {
      RunPreamble(s, f, HunkLines(f.hunks));
      UnseenName(f);
      RunRemovals(Flush(s), f.hunks);
    }
  }

  lemma {:induction false} UnseenName(f: FileDiff)
    requires f.newLabel == NO_FILE
    ensures SeenName(f) == ""
  {
    assert f.newLabel[0] == '/';
  }

  lemma {:induction false} RunRemovals(known: FileHunks, hunks: seq<HunkText>)
    requires forall i :: 0 <= i < |hunks| ==> hunks[i].hunk.after == []
    ensures Flush(Run(State(known, "", [], [], 0, 0), HunkLines(hunks))) == known
  {
    RemovalsName(hunks);
    RunNameless(State(known, "", [], [], 0, 0), HunkLines(hunks));
  }

  ghost predicate NamesDistinct(files: seq<FileDiff>) {
    forall i, j :: 0 <= i < j < |files| && Shown(files[i]) && Shown(files[j]) ==> SeenName(files[i]) != SeenName(files[j])
  }

  ghost predicate AllUnknown(known: FileHunks, files: seq<FileDiff>) {
    forall i :: 0 <= i < |files| && Shown(files[i]) ==> Unknown(known, SeenName(files[i]))
  }

  lemma {:induction false} StillUnknown(known: FileHunks, files: seq<FileDiff>)
    requires files != [] && NamesDistinct(files) && AllUnknown(known, files)
    ensures AllUnknown(known, files[1..])
    ensures Shown(files[0]) ==> AllUnknown(known + [(SeenName(files[0]), HunksOf(files[0].hunks))], files[1..])
  {
    forall i | 0 <= i < |files[1..]| ensures files[1..][i] == files[i + 1] {
    }
  }

  lemma {:induction false} RunFile(s: State, f: FileDiff)
    requires Printable(f) && CleanFile(f) && (Shown(f) ==> Unknown(Flush(s), SeenName(f)))
    ensures Flush(Run(s, FileLines(f))) == Flush(s) + Listed([f])
  {
    assert [f][1..] == [];
    if Shown(f) {
      RunCleanFile(s, f);
    } else {
      RunDeletedFile(s, f);
    }
  }

  lemma {:induction false} Regroup<T>(a: seq<T>, b: seq<T>, c: seq<T>)
    ensures a + b + c == a + (b + c)
  {
  }

  lemma {:induction false} RunCleanFiles(s: State, files: seq<FileDiff>)
    requires forall i :: 0 <= i < |files| ==> Printable(files[i]) && CleanFile(files[i])
    requires NamesDistinct(files) && AllUnknown(Flush(s), files)
    ensures Flush(Run(s, DiffLines(files))) == Flush(s) + Listed(files)
    decreases |files|
  {
    if files != [] {
      var s' := RunFirst(s, files);
      RunCleanFiles(s', files[1..]);
      ListedFirst(files);
      Regroup(Flush(s), Listed([files[0]]), Listed(files[1..]));
    } else {
      assert Flush(s) + [] == Flush(s);
    }
  }

  lemma {:induction false} RunFirst(s: State, files: seq<FileDiff>) returns (s': State)
    requires files != [] && Printable(files[0]) && CleanFile(files[0])
    requires NamesDistinct(files) && AllUnknown(Flush(s), files)
    ensures Run(s, DiffLines(files)) == Run(s', DiffLines(files[1..]))
    ensures Flush(s') == Flush(s) + Listed([files[0]])
    ensures AllUnknown(Flush(s'), files[1..]) && NamesDistinct(files[1..])
  {
    s' := Run(s, FileLines(files[0]));
    RunFile(s, files[0]);
    RunAppend(s, FileLines(files[0]), DiffLines(files[1..]));
    NextUnknown(Flush(s), files);
  }

  lemma {:induction false} ListedFirst(files: seq<FileDiff>)
    requires files != []
    ensures Listed(files) == Listed([files[0]]) + Listed(files[1..])
  {
    assert [files[0]][1..] == [];
  }

  lemma {:induction false} NextUnknown(known: FileHunks, files: seq<FileDiff>)
    requires files != [] && NamesDistinct(files) && AllUnknown(known, files)
    ensures AllUnknown(known + Listed([files[0]]), files[1..]) && NamesDistinct(files[1..])
  {
    StillUnknown(known, files);
    assert [files[0]][1..] == [];
    assert known + [] == known;
  }

  // ---------------------------------------------------------------------------------------------
  // Accounting: what the parser cannot record
  // ---------------------------------------------------------------------------------------------

  /** Characters and line ends. */
  function TextSize(lines: seq<string>): nat {
    if lines == [] then 0 else |lines[0]| + 1 + TextSize(lines[1..])
  }

  function HunkSize(h: Hunk): nat {
    TextSize(h.before) + TextSize(h.after)
  }

  function HunksSize(hunks: seq<Hunk>): nat {
    if hunks == [] then 0 else HunkSize(hunks[0]) + HunksSize(hunks[1..])
  }

  function Size(files: FileHunks): nat {
    if files == [] then 0 else HunksSize(files[0].1) + Size(files[1..])
  }

  /** What a line adds: its content and line end, if it is recorded. */
  function Gain(line: string): nat {
    if (StartsWith(line, "-") && !StartsWith(line, "--- ")) || (StartsWith(line, "+") && !StartsWith(line, "+++ ")) then |line|
    else 0
  }

  function Gains(lines: seq<string>): nat {
    if lines == [] then 0 else Gain(lines[0]) + Gains(lines[1..])
  }

  function Pending(s: State): nat {
    Size(s.files) + TextSize(s.before) + TextSize(s.after)
  }

  lemma {:induction false} TextSizeAppend(lines: seq<string>, l: string)
    ensures TextSize(lines + [l]) == TextSize(lines) + |l| + 1
  {
    if lines == [] {
      assert lines + [l] == [l] && [l][1..] == [];
    } else {
      assert (lines + [l])[1..] == lines[1..] + [l];
      TextSizeAppend(lines[1..], l);
    }
  }

  lemma {:induction false} HunksSizeAppend(hunks: seq<Hunk>, h: Hunk)
    ensures HunksSize(hunks + [h]) == HunksSize(hunks) + HunkSize(h)
  {
    if hunks == [] {
      assert hunks + [h] == [h] && [h][1..] == [];
    } else {
      assert (hunks + [h])[1..] == hunks[1..] + [h];
      HunksSizeAppend(hunks[1..], h);
    }
  }

  lemma {:induction false} AddHunkSize(files: FileHunks, name: string, h: Hunk)
    ensures Size(AddHunk(files, name, h)) == Size(files) + HunkSize(h)
  {
    if files == [] {
      assert [(name, [h])][1..] == [] && [h][1..] == [];
      assert HunksSize([h]) == HunkSize(h);
    } else if files[0].0 == name {
      HunksSizeAppend(files[0].1, h);
      assert ([(name, files[0].1 + [h])] + files[1..])[1..] == files[1..];
    } else {
      AddHunkSize(files[1..], name, h);
      assert ([files[0]] + AddHunk(files[1..], name, h))[1..] == AddHunk(files[1..], name, h);
    }
  }

  lemma {:induction false} FlushSize(s: State)
    ensures Size(Flush(s)) <= Pending(s)
  {
    AddHunkSize(s.files, s.current, Hunk(s.before, s.after, s.beforeStart, s.afterStart));
  }

  lemma {:induction false} StepSize(s: State, line: string)
    ensures Pending(StepLine(s, line)) <= Pending(s) + Gain(line)
  {
    if StartsWith(line, "diff --git ") || ParseHeader(line).Some? {
      CloseSize(s, line);
    } else {
      LineSize(s, line);
    }
  }

  lemma {:induction false} CloseSize(s: State, line: string)
    requires StartsWith(line, "diff --git ") || ParseHeader(line).Some?
    ensures Pending(StepLine(s, line)) <= Pending(s)
  {
    FlushSize(s);
  }

  lemma {:induction false} LineSize(s: State, line: string)
    requires !StartsWith(line, "diff --git ") && ParseHeader(line).None?
    ensures Pending(StepLine(s, line)) <= Pending(s) + Gain(line)
  {
    if line != "" {
      TextSizeAppend(s.before, line[1..]);
      TextSizeAppend(s.after, line[1..]);
    }
  }

  /** No line adds more than its gain. */
  lemma {:induction false} RunSize(s: State, lines: seq<string>)
    ensures Pending(Run(s, lines)) <= Pending(s) + Gains(lines)
    decreases |lines|
  {
    if lines != [] {
      StepSize(s, lines[0]);
      RunSize(StepLine(s, lines[0]), lines[1..]);
    }
  }

  lemma {:induction false} GainsAppend(a: seq<string>, b: seq<string>)
    ensures Gains(a + b) == Gains(a) + Gains(b)
  {
    if a == [] {
      assert a + b == b;
    } else {
      assert (a + b)[1..] == a[1..] + b;
      GainsAppend(a[1..], b);
    }
  }

  lemma {:induction false} GainOfPrefixed(c: char, prefix: string, l: string)
    requires (c == '-' && prefix == "-- ") || (c == '+' && prefix == "++ ")
    ensures Gain([c] + l) <= |l| + 1
    ensures Gain([c] + l) == |l| + 1 ==> !StartsWith(l, prefix)
  {
    var line := [c] + l;
    assert line[0] == c && line[1..] == l;
    assert StartsWith(line, [c] + prefix) <==> StartsWith(l, prefix);
  }

  lemma {:induction false} GainsPrefixed(c: char, prefix: string, lines: seq<string>)
    requires (c == '-' && prefix == "-- ") || (c == '+' && prefix == "++ ")
    ensures Gains(Prefixed(c, lines)) <= TextSize(lines)
    ensures Gains(Prefixed(c, lines)) == TextSize(lines) ==> NoneStarts(lines, prefix)
  {
    if lines != [] {
      GainsPrefixed(c, prefix, lines[1..]);
      GainOfPrefixed(c, prefix, lines[0]);
      if NoneStarts(lines[1..], prefix) && !StartsWith(lines[0], prefix) {
        forall i | 0 <= i < |lines| ensures !StartsWith(lines[i], prefix) {
          assert i > 0 ==> lines[i] == lines[1..][i - 1];
        }
      }
    }
  }

  lemma {:induction false} GainsHunks(hunks: seq<HunkText>)
    ensures Gains(HunkLines(hunks)) <= HunksSize(HunksOf(hunks))
    ensures Gains(HunkLines(hunks)) == HunksSize(HunksOf(hunks)) ==> CleanHunks(hunks)
  {
    if hunks != [] {
      var h := hunks[0];
      GainsHunks(hunks[1..]);
      GainsPrefixed('-', "-- ", h.hunk.before);
      GainsPrefixed('+', "++ ", h.hunk.after);
      GainsAppend([HunkHeader(h)] + HunkBody(h), HunkLines(hunks[1..]));
      GainsBody(h);
      if CleanHunks(hunks[1..]) && CleanHunk(h) {
        forall i | 0 <= i < |hunks| ensures CleanHunk(hunks[i]) {
          assert i > 0 ==> hunks[i] == hunks[1..][i - 1];
        }
      }
    }
  }

  lemma {:induction false} GainsBody(h: HunkText)
    ensures Gains([HunkHeader(h)] + HunkBody(h)) == Gains(Prefixed('-', h.hunk.before)) + Gains(Prefixed('+', h.hunk.after))
  {
    var b, a := Prefixed('-', h.hunk.before), Prefixed('+', h.hunk.after);
    GainsAppend([HunkHeader(h)], HunkBody(h));
    GainsAppend(b + NoEol(h.beforeNoEol), a + NoEol(h.afterNoEol));
    GainsAppend(b, NoEol(h.beforeNoEol));
    GainsAppend(a, NoEol(h.afterNoEol));
    assert HunkHeader(h)[0] == '@';
    assert Gains([HunkHeader(h)]) == 0 by {
      assert [HunkHeader(h)][1..] == [];
    }
    GainsNoEol(h.beforeNoEol);
    GainsNoEol(h.afterNoEol);
  }

  lemma {:induction false} GainsNoEol(flag: bool)
    ensures Gains(NoEol(flag)) == 0
  {
    if flag {
      assert NoEol(flag)[1..] == [] && NoEol(flag)[0][0] == '\\';
    }
  }

  /** All lines of a file that still exists. */
  function WantedOf(f: FileDiff): nat {
    if Shown(f) then HunksSize(HunksOf(f.hunks)) else 0
  }

  function Wanted(files: seq<FileDiff>): nat {
    if files == [] then 0 else WantedOf(files[0]) + Wanted(files[1..])
  }

  /** A file adds at most its lines, and all of them only if it is clean. */
  lemma {:induction false} FileSize(s: State, f: FileDiff)
    requires Printable(f)
    ensures Size(Flush(Run(s, FileLines(f)))) <= Size(Flush(s)) + WantedOf(f)
    ensures Size(Flush(Run(s, FileLines(f)))) == Size(Flush(s)) + WantedOf(f) ==> CleanFile(f)
  {
    if !Shown(f) {
      RunDeletedFile(s, f);
    } else {
      RunPreamble(s, f, HunkLines(f.hunks));
      var known := State(Flush(s), SeenName(f), [], [], 0, 0);
      RunSize(known, HunkLines(f.hunks));
      FlushSize(Run(known, HunkLines(f.hunks)));
      GainsHunks(f.hunks);
      if SeenName(f) == "" {
        NamelessLoses(Flush(s), f.hunks);
      }
    }
  }

  /** Without a name the hunks are not all recorded. */
  lemma {:induction false} NamelessLoses(known: FileHunks, hunks: seq<HunkText>)
    requires hunks != [] && forall i :: 0 <= i < |hunks| ==> hunks[i].hunk.before != [] || hunks[i].hunk.after != []
    ensures Size(Flush(Run(State(known, "", [], [], 0, 0), HunkLines(hunks)))) < Size(known) + HunksSize(HunksOf(hunks))
  {
    var s := State(known, "", [], [], 0, 0);
    GainsHunks(hunks);
    if CleanHunks(hunks) {
      CleanNameless(hunks);
      RunNameless(s, HunkLines(hunks));
      assert HunksSize(HunksOf(hunks)) >= HunkSize(hunks[0].hunk) > 0;
    } else {
      RunSize(s, HunkLines(hunks));
      FlushSize(Run(s, HunkLines(hunks)));
    }
  }

  lemma {:induction false} CleanNameless(hunks: seq<HunkText>)
    requires CleanHunks(hunks)
    ensures NoneStarts(HunkLines(hunks), "+++ b/")
  {
    if hunks != [] {
      assert CleanHunk(hunks[0]);
      CleanNameless(hunks[1..]);
      HunkNames(hunks[0]);
      NoneStartsAppend([HunkHeader(hunks[0])] + HunkBody(hunks[0]), HunkLines(hunks[1..]), "+++ b/");
    }
  }

  lemma {:induction false} FilesSize(s: State, files: seq<FileDiff>)
    requires forall i :: 0 <= i < |files| ==> Printable(files[i])
    ensures Size(Flush(Run(s, DiffLines(files)))) <= Size(Flush(s)) + Wanted(files)
    ensures Size(Flush(Run(s, DiffLines(files)))) == Size(Flush(s)) + Wanted(files) ==>
              forall i :: 0 <= i < |files| ==> CleanFile(files[i])
    decreases |files|
  {
    if files != [] {
      FileSize(s, files[0]);
      RunAppend(s, FileLines(files[0]), DiffLines(files[1..]));
      FilesSize(Run(s, FileLines(files[0])), files[1..]);
    }
  }

  lemma {:induction false} ListedSize(files: seq<FileDiff>)
    ensures Size(Listed(files)) == Wanted(files)
  {
    if files != [] {
      ListedSize(files[1..]);
      var f := files[0];
      if Shown(f) {
        assert ([(SeenName(f), HunksOf(f.hunks))] + Listed(files[1..]))[1..] == Listed(files[1..]);
      } else {
        assert Listed(files) == Listed(files[1..]);
      }
    }
  }

  /** On lines: with distinct names the parser lists all printed files exactly when every surviving
      file has a name, no removed line starting with two dashes and a space, and no added line starting
      with two pluses and a space. */
  lemma {:induction false} LinesRoundTripIff(files: seq<FileDiff>)
    requires forall i :: 0 <= i < |files| ==> Printable(files[i])
    requires NamesDistinct(files)
    ensures Flush(Run(START, DiffLines(files))) == Listed(files) <==> forall i :: 0 <= i < |files| ==> CleanFile(files[i])
  {
    if forall i :: 0 <= i < |files| ==> CleanFile(files[i]) {
      RunCleanFiles(START, files);
      assert Flush(START) + Listed(files) == Listed(files);
    }
    FilesSize(START, files);
    ListedSize(files);
  }

  // ---------------------------------------------------------------------------------------------
  // Text: every line loses a carriage return at its end
  // ---------------------------------------------------------------------------------------------

  function StripHunk(h: HunkText): HunkText {
    HunkText(Hunk(StripAll(h.hunk.before), StripAll(h.hunk.after), h.hunk.beforeStart, h.hunk.afterStart), StripCr(h.heading),
             h.beforeNoEol, h.afterNoEol)
  }

  function StripHunks(hunks: seq<HunkText>): (r: seq<HunkText>)
    ensures |r| == |hunks| && forall i :: 0 <= i < |r| ==> r[i] == StripHunk(hunks[i])
  {
    if hunks == [] then [] else [StripHunk(hunks[0])] + StripHunks(hunks[1..])
  }

  function StripFile(f: FileDiff): FileDiff {
    FileDiff(StripCr(f.title), StripCr(f.oldLabel), StripCr(f.newLabel), StripAll(f.extended), StripHunks(f.hunks))
  }

  function StripFiles(files: seq<FileDiff>): (r: seq<FileDiff>)
    ensures |r| == |files| && forall i :: 0 <= i < |r| ==> r[i] == StripFile(files[i])
  {
    if files == [] then [] else [StripFile(files[0])] + StripFiles(files[1..])
  }

  lemma {:induction false} StripPrefixed(c: char, lines: seq<string>)
    requires c != '\r'
    ensures StripAll(Prefixed(c, lines)) == Prefixed(c, StripAll(lines))
  {
    if lines != [] {
      StripPrefixed(c, lines[1..]);
      StripAfter([c], lines[0]);
      assert Prefixed(c, lines)[1..] == Prefixed(c, lines[1..]);
      assert StripAll(lines)[1..] == StripAll(lines[1..]);
    }
  }

  lemma {:induction false} StripHeader(h: HunkText)
    ensures StripCr(HunkHeader(h)) == HunkHeader(StripHunk(h))
  {
    var bs, bn, afs, afn := h.hunk.beforeStart, |h.hunk.before|, h.hunk.afterStart, |h.hunk.after|;
    var start := "@@ -" + (Digits(bs) + (CountText(bn) + (" +" + (Digits(afs) + CountText(afn)))));
    assert forall heading: string :: HeaderText(bs, bn, afs, afn, heading) == start + " @@" + heading;
    StripAfter(start + " @@", h.heading);
  }

  lemma {:induction false} StripHunkLines(hunks: seq<HunkText>)
    ensures StripAll(HunkLines(hunks)) == HunkLines(StripHunks(hunks))
  {
    if hunks != [] {
      StripHunkLines(hunks[1..]);
      assert StripHunks(hunks)[1..] == StripHunks(hunks[1..]);
      StripAllAppend([HunkHeader(hunks[0])] + HunkBody(hunks[0]), HunkLines(hunks[1..]));
      StripOneHunk(hunks[0]);
    }
  }

  lemma {:induction false} StripOneHunk(h: HunkText)
    ensures StripAll([HunkHeader(h)] + HunkBody(h)) == [HunkHeader(StripHunk(h))] + HunkBody(StripHunk(h))
  {
    var removed, added := Prefixed('-', h.hunk.before) + NoEol(h.beforeNoEol), Prefixed('+', h.hunk.after) + NoEol(h.afterNoEol);
    StripHeader(h);
    StripPrefixed('-', h.hunk.before);
    StripPrefixed('+', h.hunk.after);
    StripAllAppend([HunkHeader(h)], removed + added);
    StripAllAppend(removed, added);
    StripAllAppend(Prefixed('-', h.hunk.before), NoEol(h.beforeNoEol));
    StripAllAppend(Prefixed('+', h.hunk.after), NoEol(h.afterNoEol));
    StripNoEol(h.beforeNoEol);
    StripNoEol(h.afterNoEol);
    assert [HunkHeader(h)][1..] == [];
  }

  lemma {:induction false} StripNoEol(flag: bool)
    ensures StripAll(NoEol(flag)) == NoEol(flag)
  {
    if flag {
      assert NoEol(flag)[1..] == [];
    }
  }

  lemma {:induction false} StripSides(f: FileDiff)
    ensures StripAll(SideLines(f)) == SideLines(StripFile(f))
  {
    var sides := SideLines(f);
    StripAfter("--- ", f.oldLabel);
    StripAfter("+++ ", f.newLabel);
    assert sides[1..] == [sides[1]] && sides[1..][1..] == [];
  }

  lemma {:induction false} StripFileLines(f: FileDiff)
    ensures StripAll(FileLines(f)) == FileLines(StripFile(f))
  {
    var first := ["diff --git " + f.title];
    var rest := if f.hunks == [] then [] else SideLines(f) + HunkLines(f.hunks);
    StripAllAppend(first, f.extended + rest);
    StripAllAppend(f.extended, rest);
    StripAllAppend(SideLines(f), HunkLines(f.hunks));
    StripAfter("diff --git ", f.title);
    assert first[1..] == [];
    StripSides(f);
    StripHunkLines(f.hunks);
  }

  lemma {:induction false} StripDiffLines(files: seq<FileDiff>)
    ensures StripAll(DiffLines(files)) == DiffLines(StripFiles(files))
  {
    if files != [] {
      StripDiffLines(files[1..]);
      StripFileLines(files[0]);
      StripAllAppend(FileLines(files[0]), DiffLines(files[1..]));
      assert StripFiles(files)[1..] == StripFiles(files[1..]);
    }
  }

  ghost predicate NoneEndsInCr(lines: seq<string>) {
    forall i :: 0 <= i < |lines| ==> !EndsInCr(lines[i])
  }

  ghost predicate CrFreeHunks(hunks: seq<HunkText>) {
    forall i :: 0 <= i < |hunks| ==> NoneEndsInCr(hunks[i].hunk.before) && NoneEndsInCr(hunks[i].hunk.after)
  }

  lemma {:induction false} StripTextSize(lines: seq<string>)
    ensures TextSize(StripAll(lines)) <= TextSize(lines)
    ensures TextSize(StripAll(lines)) == TextSize(lines) ==> NoneEndsInCr(lines)
    ensures NoneEndsInCr(lines) ==> StripAll(lines) == lines
  {
    if lines != [] {
      StripTextSize(lines[1..]);
      assert StripAll(lines)[1..] == StripAll(lines[1..]);
      if NoneEndsInCr(lines[1..]) && !EndsInCr(lines[0]) {
        forall i | 0 <= i < |lines| ensures !EndsInCr(lines[i]) {
          assert i > 0 ==> lines[i] == lines[1..][i - 1];
        }
      }
    }
  }

  lemma {:induction false} StripHunksSize(hunks: seq<HunkText>)
    ensures HunksSize(HunksOf(StripHunks(hunks))) <= HunksSize(HunksOf(hunks))
    ensures HunksSize(HunksOf(StripHunks(hunks))) == HunksSize(HunksOf(hunks)) ==> CrFreeHunks(hunks)
    ensures CrFreeHunks(hunks) ==> HunksOf(StripHunks(hunks)) == HunksOf(hunks)
  {
    if hunks != [] {
      StripHunksSize(hunks[1..]);
      StripTextSize(hunks[0].hunk.before);
      StripTextSize(hunks[0].hunk.after);
      assert StripHunks(hunks)[1..] == StripHunks(hunks[1..]);
      if CrFreeHunks(hunks[1..]) && NoneEndsInCr(hunks[0].hunk.before) && NoneEndsInCr(hunks[0].hunk.after) {
        forall i | 0 <= i < |hunks| ensures NoneEndsInCr(hunks[i].hunk.before) && NoneEndsInCr(hunks[i].hunk.after) {
          assert i > 0 ==> hunks[i] == hunks[1..][i - 1];
        }
      }
    }
  }

  lemma {:induction false} StripPrintable(f: FileDiff)
    requires Printable(f) && (StripCr(f.newLabel) == NO_FILE <==> f.newLabel == NO_FILE)
    ensures Printable(StripFile(f))
  {
    forall i | 0 <= i < |f.extended| ensures Inert(StripAll(f.extended)[i]) {
      assert Inert(f.extended[i]);
      assert StripCr(f.extended[i]) <= f.extended[i];
    }
    forall i | 0 <= i < |f.hunks|
      ensures StripHunk(f.hunks[i]).hunk.before != [] || StripHunk(f.hunks[i]).hunk.after != []
    {
      assert |StripAll(f.hunks[i].hunk.before)| == |f.hunks[i].hunk.before|;
      assert |StripAll(f.hunks[i].hunk.after)| == |f.hunks[i].hunk.after|;
    }
    assert StripAll([]) == [];
  }

  lemma {:induction false} StripClean(hunks: seq<HunkText>)
    requires CrFreeHunks(hunks)
    ensures CleanHunks(StripHunks(hunks)) <==> CleanHunks(hunks)
  {
    forall i | 0 <= i < |hunks| ensures CleanHunk(StripHunk(hunks[i])) <==> CleanHunk(hunks[i]) {
      StripTextSize(hunks[i].hunk.before);
      StripTextSize(hunks[i].hunk.after);
    }
  }

  // ---------------------------------------------------------------------------------------------
  // What git prints for a change
  // ---------------------------------------------------------------------------------------------

  /** A name git cannot print plainly comes with its quoted form, without the opening quote. */
  datatype Side = Present(name: string, quoted: Option<string>) | Absent

  datatype FileChange = FileChange(title: string, old_: Side, new_: Side, extended: seq<string>, hunks: seq<HunkText>)

  /** Control characters, quotes, backslashes and everything outside ASCII. */
  predicate NeedsQuotes(name: string) {
    exists i :: 0 <= i < |name| && (name[i] < ' ' || name[i] > '~' || name[i] == '"' || name[i] == '\\')
  }

  /** A plain name with a space is followed by a tab. */
  function Label(prefix: string, side: Side): string {
    if side.Absent? then NO_FILE
    else if side.quoted.Some? then "\"" + side.quoted.value
    else prefix + side.name + if ' ' in side.name then "\t" else ""
  }

  function PrintFile(c: FileChange): FileDiff {
    FileDiff(c.title, Label("a/", c.old_), Label("b/", c.new_), c.extended, c.hunks)
  }

  function PrintFiles(changes: seq<FileChange>): (r: seq<FileDiff>)
    ensures |r| == |changes| && forall i :: 0 <= i < |r| ==> r[i] == PrintFile(changes[i])
  {
    if changes == [] then [] else [PrintFile(changes[0])] + PrintFiles(changes[1..])
  }

  ghost predicate ValidChange(c: FileChange) {
    && Printable(PrintFile(c))
    && (c.new_.Present? ==> c.new_.name != "" && (c.new_.quoted.Some? <==> NeedsQuotes(c.new_.name)))
  }

  /** The changed file still exists and has hunks. */
  predicate Remains(c: FileChange) {
    c.new_.Present? && c.hunks != []
  }

  ghost predicate PathsDistinct(changes: seq<FileChange>) {
    forall i, j :: 0 <= i < j < |changes| && Remains(changes[i]) && Remains(changes[j]) ==> changes[i].new_.name != changes[j].new_.name
  }

  /** What the parser should return: the hunks of every file that still exists, in order. */
  function Expected(changes: seq<FileChange>): FileHunks {
    if changes == [] then []
    else (if Remains(changes[0]) then [(changes[0].new_.name, HunksOf(changes[0].hunks))] else []) + Expected(changes[1..])
  }

  /** A file the parser gets right. */
  ghost predicate Readable(c: FileChange) {
    Remains(c) ==> !NeedsQuotes(c.new_.name) && ' ' !in c.new_.name && CleanHunks(c.hunks) && CrFreeHunks(c.hunks)
  }

  /** The change as the parser sees it, after splitting. */
  function Seen(c: FileChange): FileDiff {
    StripFile(PrintFile(c))
  }

  lemma {:induction false} SeenIs(c: FileChange)
    requires ValidChange(c)
    ensures Printable(Seen(c)) && (Shown(Seen(c)) <==> Remains(c)) && Seen(c).hunks == StripHunks(c.hunks)
    ensures c.new_.Present? ==>
              (SeenName(Seen(c)) == c.new_.name <==> !NeedsQuotes(c.new_.name) && ' ' !in c.new_.name)
  {
    var f := PrintFile(c);
    if c.new_.Present? {
      SeenLabel(c.new_);
    } else {
      assert StripCr(NO_FILE) == NO_FILE;
    }
    StripPrintable(f);
  }

  lemma {:induction false} SeenLabel(side: Side)
    requires side.Present? && side.name != "" && (side.quoted.Some? <==> NeedsQuotes(side.name))
    ensures var shown := StripCr(Label("b/", side));
      && shown != NO_FILE && Label("b/", side) != NO_FILE
      && ((if StartsWith(shown, "b/") then shown[2..] else "") == side.name <==> !NeedsQuotes(side.name) && ' ' !in side.name)
  {
    var shown := Label("b/", side);
    if side.quoted.Some? {
      StripAfter("\"", side.quoted.value);
      assert StripCr(shown)[0] == '"';
    } else {
      var text := side.name + if ' ' in side.name then "\t" else "";
      assert shown == "b/" + text;
      StripAfter("b/", text);
      assert !EndsInCr(text);
      assert shown[2..] == text && shown[0] == 'b';
      assert |text| == |side.name| <==> ' ' !in side.name;
    }
  }

  function SeenAll(changes: seq<FileChange>): (r: seq<FileDiff>)
    ensures |r| == |changes| && forall i :: 0 <= i < |r| ==> r[i] == Seen(changes[i])
  {
    if changes == [] then [] else [Seen(changes[0])] + SeenAll(changes[1..])
  }

  lemma {:induction false} ExpectedSize(changes: seq<FileChange>)
    requires forall i :: 0 <= i < |changes| ==> ValidChange(changes[i])
    ensures Wanted(SeenAll(changes)) <= Size(Expected(changes))
    ensures Wanted(SeenAll(changes)) == Size(Expected(changes)) ==>
              forall i :: 0 <= i < |changes| && Remains(changes[i]) ==> CrFreeHunks(changes[i].hunks)
  {
    if changes != [] {
      var c := changes[0];
      ExpectedSize(changes[1..]);
      OneExpectedSize(c);
      FirstExpectedSize(changes);
      assert forall i :: 0 < i < |changes| ==> changes[i] == changes[1..][i - 1];
    }
  }

  lemma {:induction false} FirstExpectedSize(changes: seq<FileChange>)
    requires changes != []
    ensures Wanted(SeenAll(changes)) == WantedOf(Seen(changes[0])) + Wanted(SeenAll(changes[1..]))
    ensures Size(Expected(changes))
            == (if Remains(changes[0]) then HunksSize(HunksOf(changes[0].hunks)) else 0) + Size(Expected(changes[1..]))
  {
    var c := changes[0];
    assert SeenAll(changes)[1..] == SeenAll(changes[1..]);
    if Remains(c) {
      assert ([(c.new_.name, HunksOf(c.hunks))] + Expected(changes[1..]))[1..] == Expected(changes[1..]);
    } else {
      assert Expected(changes) == Expected(changes[1..]);
    }
  }

  lemma {:induction false} OneExpectedSize(c: FileChange)
    requires ValidChange(c)
    ensures var size := if Remains(c) then HunksSize(HunksOf(c.hunks)) else 0;
      WantedOf(Seen(c)) <= size && (WantedOf(Seen(c)) == size ==> Remains(c) ==> CrFreeHunks(c.hunks))
  {
    SeenIs(c);
    StripHunksSize(c.hunks);
  }

  ghost predicate NamesSeen(changes: seq<FileChange>) {
    forall i :: 0 <= i < |changes| && Remains(changes[i]) ==> SeenName(Seen(changes[i])) == changes[i].new_.name
  }

  lemma {:induction false} FirstNameSeen(changes: seq<FileChange>)
    requires changes != []
    ensures NamesSeen(changes)
            <==> (Remains(changes[0]) ==> SeenName(Seen(changes[0])) == changes[0].new_.name) && NamesSeen(changes[1..])
  {
    assert forall i :: 0 < i < |changes| ==> changes[i] == changes[1..][i - 1];
  }

  /** With the lines intact the seen files are the expected ones exactly when all names are seen. */
  lemma {:induction false} ListedIsExpected(changes: seq<FileChange>)
    requires forall i :: 0 <= i < |changes| ==> ValidChange(changes[i]) && (Remains(changes[i]) ==> CrFreeHunks(changes[i].hunks))
    ensures |Listed(SeenAll(changes))| == |Expected(changes)|
    ensures Listed(SeenAll(changes)) == Expected(changes) <==> NamesSeen(changes)
  {
    if changes != [] {
      var c := changes[0];
      ListedIsExpected(changes[1..]);
      FirstListed(changes);
      var l, e := Listed(SeenAll(changes[1..])), Expected(changes[1..]);
      if Remains(c) {
        ConsAgrees((SeenName(Seen(c)), HunksOf(c.hunks)), l, (c.new_.name, HunksOf(c.hunks)), e);
      }
      FirstNameSeen(changes);
    }
  }

  lemma {:induction false} FirstListed(changes: seq<FileChange>)
    requires changes != [] && ValidChange(changes[0]) && (Remains(changes[0]) ==> CrFreeHunks(changes[0].hunks))
    ensures var c, l := changes[0], Listed(SeenAll(changes[1..]));
      Listed(SeenAll(changes)) == if Remains(c) then [(SeenName(Seen(c)), HunksOf(c.hunks))] + l else l
  {
    var c, l := changes[0], Listed(SeenAll(changes[1..]));
    SeenIs(c);
    StripHunksSize(c.hunks);
    assert SeenAll(changes)[1..] == SeenAll(changes[1..]);
    assert [] + l == l;
  }

  lemma {:induction false} ConsAgrees<T>(x: T, l: seq<T>, y: T, e: seq<T>)
    ensures [x] + l == [y] + e <==> x == y && l == e
  {
    if [x] + l == [y] + e {
      assert ([x] + l)[0] == x && ([x] + l)[1..] == l && ([y] + e)[0] == y && ([y] + e)[1..] == e;
    }
  }

  lemma {:induction false} AddAllKnown(files: FileHunks, name: string, hunks: seq<Hunk>)
    requires !Unknown(files, name)
    ensures |AddAll(files, name, hunks)| == |files|
    decreases |hunks|
  {
    if hunks != [] {
      AddKnown(files, name, hunks[0]);
      AddAllKnown(AddHunk(files, name, hunks[0]), name, hunks[1..]);
    }
  }

  lemma {:induction false} AddKnown(files: FileHunks, name: string, h: Hunk)
    requires !Unknown(files, name)
    ensures |AddHunk(files, name, h)| == |files| && !Unknown(AddHunk(files, name, h), name)
  {
    if files[0].0 == name {
      assert AddHunk(files, name, h)[0].0 == name;
    } else {
      var i :| 0 <= i < |files| && files[i].0 == name;
      assert files[1..][i - 1].0 == name;
      AddKnown(files[1..], name, h);
      var rest := AddHunk(files[1..], name, h);
      var j :| 0 <= j < |rest| && rest[j].0 == name;
      assert AddHunk(files, name, h)[j + 1].0 == name;
    }
  }

  /** Clean files open at most one entry each, and if each opens one the result lists them. */
  lemma {:induction false} RunCount(s: State, files: seq<FileDiff>)
    requires forall i :: 0 <= i < |files| ==> Printable(files[i]) && CleanFile(files[i])
    ensures |Flush(Run(s, DiffLines(files)))| <= |Flush(s)| + |Listed(files)|
    ensures |Flush(Run(s, DiffLines(files)))| == |Flush(s)| + |Listed(files)| ==>
              Flush(Run(s, DiffLines(files))) == Flush(s) + Listed(files)
    decreases |files|
  {
    if files != [] {
      var s' := Run(s, FileLines(files[0]));
      RunAppend(s, FileLines(files[0]), DiffLines(files[1..]));
      RunCount(s', files[1..]);
      ListedFirst(files);
      FirstCount(s, files[0]);
      Regroup(Flush(s), Listed([files[0]]), Listed(files[1..]));
    } else {
      assert Flush(s) + [] == Flush(s);
    }
  }

  lemma {:induction false} FirstCount(s: State, f: FileDiff)
    requires Printable(f) && CleanFile(f)
    ensures var after := Flush(Run(s, FileLines(f)));
      && |after| <= |Flush(s)| + |Listed([f])|
      && (|after| == |Flush(s)| + |Listed([f])| ==> after == Flush(s) + Listed([f]))
  {
    assert [f][1..] == [];
    if !Shown(f) {
      RunDeletedFile(s, f);
      assert Flush(s) + [] == Flush(s);
    } else {
      RunCleanFile(s, f);
      if !Unknown(Flush(s), SeenName(f)) {
        AddAllKnown(Flush(s), SeenName(f), HunksOf(f.hunks));
      }
    }
  }

  lemma {:induction false} AllReadable(changes: seq<FileChange>)
    requires forall i :: 0 <= i < |changes| ==> ValidChange(changes[i]) && Readable(changes[i])
    requires PathsDistinct(changes)
    ensures Flush(Run(START, DiffLines(SeenAll(changes)))) == Expected(changes)
  {
    var seen := SeenAll(changes);
    forall i | 0 <= i < |changes|
      ensures Printable(seen[i]) && CleanFile(seen[i]) && (Shown(seen[i]) <==> Remains(changes[i]))
      ensures Remains(changes[i]) ==> SeenName(seen[i]) == changes[i].new_.name
    {
      SeenIs(changes[i]);
      if Remains(changes[i]) {
        StripClean(changes[i].hunks);
      }
    }
    assert NamesDistinct(seen);
    LinesRoundTripIff(seen);
    ListedIsExpected(changes);
  }

  lemma {:induction false} OnlyReadable(changes: seq<FileChange>)
    requires forall i :: 0 <= i < |changes| ==> ValidChange(changes[i])
    requires Flush(Run(START, DiffLines(SeenAll(changes)))) == Expected(changes)
    ensures forall i :: 0 <= i < |changes| ==> Readable(changes[i])
  {
    var seen := SeenAll(changes);
    forall i | 0 <= i < |changes| ensures Printable(seen[i]) && (Shown(seen[i]) <==> Remains(changes[i])) {
      SeenIs(changes[i]);
    }
    FilesSize(START, seen);
    ExpectedSize(changes);
    ListedIsExpected(changes);
    RunCount(START, seen);
    assert Flush(START) + Listed(seen) == Listed(seen);
    forall i | 0 <= i < |changes| && Remains(changes[i]) ensures Readable(changes[i]) {
      assert CleanFile(seen[i]);
      SeenIs(changes[i]);
      StripClean(changes[i].hunks);
    }
  }

  lemma {:induction false} SeenIsStripped(changes: seq<FileChange>)
    ensures StripFiles(PrintFiles(changes)) == SeenAll(changes)
  {
  }

  /** On the text git prints, lines without line feeds: the parser returns files, hunks, order and
      start lines exactly when every file that remains has a name without spaces that git does not
      quote, no removed line starting with two dashes and a space, no added line starting with two
      pluses and a space, and no line ending in a carriage return. */
  lemma {:induction false} HunkRoundTripIff(changes: seq<FileChange>)
    requires forall i :: 0 <= i < |changes| ==> ValidChange(changes[i])
    requires PathsDistinct(changes)
    requires NoLineFeeds(DiffLines(PrintFiles(changes)))
    ensures Flush(Run(START, Split(DiffText(PrintFiles(changes))))) == Expected(changes)
            <==> forall i :: 0 <= i < |changes| ==> Readable(changes[i])
  {
    SplitJoinLf(DiffLines(PrintFiles(changes)), "");
    StripDiffLines(PrintFiles(changes));
    SeenIsStripped(changes);
    var seen := SeenAll(changes);
    RunAppend(START, DiffLines(seen), [""]);
    RunInert(Run(START, DiffLines(seen)), [""]);
    if forall i :: 0 <= i < |changes| ==> Readable(changes[i]) {
      AllReadable(changes);
    } else if Flush(Run(START, DiffLines(seen))) == Expected(changes) {
      OnlyReadable(changes);
      assert false;
    }
  }
}
