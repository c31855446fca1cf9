/** Cutting test files into overlapping blocks of lines. */
module BlockIndex {
  import opened BlockSimilarity
  import opened Decimal
  import opened Lines
  import opened Seqs

  /** A block of a file: its first line counted from zero, and how many of its lines are not blank. */
  datatype Entry = Entry(file: string, start: nat, solidLines: nat, signature: Signature)

  /** Reading a file as lines, split at LF or CRLF, and the fingerprint of a block's text. */
  datatype Reader = Reader(lines: string -> seq<string>, sign: string -> Signature)

  function KeyOf(file: string, start: nat): string {
    file + "#" + Digits(start)
  }

  function LastHash(key: string): (n: nat)
    ensures n <= |key| && (n < |key| ==> key[n] == '#')
    ensures forall i :: (if n == |key| then 0 else n + 1) <= i < |key| ==> key[i] != '#'
  {
    if key == "" then 0
    else if key[|key| - 1] == '#' then |key| - 1
    else
      var front := key[..|key| - 1];
      var n := LastHash(front);
      assert forall i :: 0 <= i < |front| ==> key[i] == front[i];
      if n == |front| then |key| else n
  }

  /** Everything before the last hash sign; nothing when there is none. */
  function FileOfBlock(key: string): string {
    if LastHash(key) == |key| then "" else key[..LastHash(key)]
  }

  lemma {:induction false} FileOfKey(file: string, start: nat)
    ensures FileOfBlock(KeyOf(file, start)) == file
  {
    var key, n := KeyOf(file, start), LastHash(KeyOf(file, start));
    assert key[|file|] == '#';
    forall i | |file| < i < |key| ensures key[i] != '#' {
      assert key[i] == Digits(start)[i - |file| - 1];
    }
    assert n == |file|;
  }

  /** A key names one block of one file, whatever the path looks like. */
  lemma {:induction false} KeyIsUnique(f: string, i: nat, g: string, j: nat)
    requires KeyOf(f, i) == KeyOf(g, j)
    ensures f == g && i == j
  {
    FileOfKey(f, i);
    FileOfKey(g, j);
    assert KeyOf(f, i)[|f| + 1..] == Digits(i);
    assert KeyOf(g, j)[|g| + 1..] == Digits(j);
    NumberOfDigits(i);
    NumberOfDigits(j);
  }

  function Stride(window: nat): (s: nat)
    ensures s >= 1 && (window > 0 ==> s <= window)
  {
    if window / 2 > 1 then window / 2 else 1
  }

  function CountSolid(lines: seq<string>): (n: nat)
    ensures n <= |lines|
  {
    if lines == [] then 0 else (if IsEmptyLine(lines[0]) then 0 else 1) + CountSolid(lines[1..])
  }

  function BlockAt(r: Reader, file: string, lines: seq<string>, window: nat, start: nat): (e: Entry)
    requires start + window <= |lines|
    ensures e.file == file && e.start == start && e.solidLines <= window
  {
    var block := lines[start..start + window];
    Entry(file, start, CountSolid(block), r.sign(Join(block, "\n")))
  }

  /** The blocks of a file from a line on, one every stride, as long as a whole window is left. */
  function BlocksFrom(r: Reader, file: string, lines: seq<string>, window: nat, start: nat): (s: seq<Entry>)
    ensures forall i :: 0 <= i < |s| ==> s[i].file == file && start <= s[i].start
    decreases |lines| - start
  {
    if start + window > |lines| then []
    else [BlockAt(r, file, lines, window, start)] + BlocksFrom(r, file, lines, window, start + Stride(window))
  }

  function BlocksOf(r: Reader, file: string, window: nat): seq<Entry> {
    BlocksFrom(r, file, r.lines(file), window, 0)
  }

  /** The blocks a file adds to those of the files before it; one that was there already adds nothing. */
  function NewBlocks(r: Reader, files: seq<string>, file: string, window: nat): (s: seq<Entry>)
    ensures forall e :: e in s ==> e.file == file
  {
    if file in files then [] else BlocksOf(r, file, window)
  }

  /** The blocks of all files in order. */
  function AllBlocks(r: Reader, files: seq<string>, window: nat): (s: seq<Entry>)
    ensures forall e :: e in s ==> e.file in files
  {
    if files == [] then []
    else
      var front, last := files[..|files| - 1], files[|files| - 1];
      AllBlocks(r, front, window) + NewBlocks(r, front, last, window)
  }

  function TotalLines(r: Reader, files: seq<string>): nat {
    if files == [] then 0
    else TotalLines(r, files[..|files| - 1]) + |r.lines(files[|files| - 1])|
  }

  /** No two blocks of the same file start at the same line. */
  ghost predicate BlocksDistinct(s: seq<Entry>) {
    forall i, j {:trigger s[i], s[j]} :: 0 <= i < j < |s| ==> s[i].file != s[j].file || s[i].start != s[j].start
  }

  /** The map finds every block of the list under its key, and nothing else. */
  ghost predicate IsIndex(order: seq<Entry>, byKey: map<string, Entry>) {
    && (forall e :: e in order ==> KeyOf(e.file, e.start) in byKey)
    && (forall key :: key in byKey ==> byKey[key] in order && key == KeyOf(byKey[key].file, byKey[key].start))
  }

  lemma {:induction false} BlocksFromDistinct(r: Reader, file: string, lines: seq<string>, window: nat, start: nat)
    ensures BlocksDistinct(BlocksFrom(r, file, lines, window, start))
    decreases |lines| - start
  {
    if start + window <= |lines| {
      BlocksFromDistinct(r, file, lines, window, start + Stride(window));
    }
  }

  lemma {:induction false} AllBlocksDistinct(r: Reader, files: seq<string>, window: nat)
    ensures BlocksDistinct(AllBlocks(r, files, window))
  {
    if files != [] {
      var front, last := files[..|files| - 1], files[|files| - 1];
      AllBlocksDistinct(r, front, window);
      BlocksFromDistinct(r, last, r.lines(last), window, 0);
      forall e, f | e in AllBlocks(r, front, window) && f in BlocksOf(r, last, window) && last !in front ensures e.file != f.file {
      }
    }
  }

  lemma {:induction false} KnownBlocks(r: Reader, files: seq<string>, window: nat, file: string, e: Entry)
    requires file in files && e in BlocksOf(r, file, window)
    ensures e in AllBlocks(r, files, window)
  {
    var front, last := files[..|files| - 1], files[|files| - 1];
    assert files == front + [last];
    if file in front {
      KnownBlocks(r, front, window, file, e);
    }
  }

  /** Puts one block into the index; the map keeps the place of a key it already has. */
  method AddEntry(order: seq<Entry>, byKey: map<string, Entry>, e: Entry) returns (order': seq<Entry>, byKey': map<string, Entry>)
    requires IsIndex(order, byKey)
    requires OnlyBlockAt(order, e)
    ensures IsIndex(order', byKey')
    ensures order' == if e in order then order else order + [e]
    ensures e in order ==> byKey' == byKey
  {
    var key := KeyOf(e.file, e.start);
    order' := order;
    if key !in byKey {
      order' := order + [e];
    } else {
      KeyIsUnique(byKey[key].file, byKey[key].start, e.file, e.start);
    }
    byKey' := byKey[key := e];
    forall f | f in order' ensures KeyOf(f.file, f.start) in byKey' {
    }
    assert e in order ==> byKey'[key] == byKey[key];
  }

  /** The list while a file is being cut, up to a line: unchanged if the file was there before, and
      otherwise short of the blocks still to come. */
  ghost predicate Underway(r: Reader, known: seq<Entry>, seen: bool, file: string, window: nat, start: nat, order: seq<Entry>) {
    var rest := BlocksFrom(r, file, r.lines(file), window, start);
    if seen then order == known && forall e :: e in rest ==> e in known
    else order + rest == known + BlocksOf(r, file, window) && forall e :: e in order && e.file == file ==> e.start < start
  }

  ghost predicate OnlyBlockAt(order: seq<Entry>, e: Entry) {
    forall f :: f in order && f.file == e.file && f.start == e.start ==> f == e
  }

  lemma {:induction false} CutOne(r: Reader, known: seq<Entry>, seen: bool, file: string, window: nat, start: nat, order: seq<Entry>)
    requires Underway(r, known, seen, file, window, start, order) && BlocksDistinct(known)
    requires start + window <= |r.lines(file)|
    ensures var e := BlockAt(r, file, r.lines(file), window, start);
      && OnlyBlockAt(order, e)
      && Underway(r, known, seen, file, window, start + Stride(window), if e in order then order else order + [e])
  {
    var lines := r.lines(file);
    var e, rest := BlockAt(r, file, lines, window, start), BlocksFrom(r, file, lines, window, start + Stride(window));
    assert BlocksFrom(r, file, lines, window, start) == [e] + rest;
    if seen {
      assert e in [e] + rest;
    } else {
      assert order + ([e] + rest) == (order + [e]) + rest;
    }
  }

  method IndexFile(r: Reader, ghost files: seq<string>, file: string, window: nat, order: seq<Entry>, byKey: map<string, Entry>)
    returns (order': seq<Entry>, byKey': map<string, Entry>, lineCount: nat)
    requires order == AllBlocks(r, files, window) && IsIndex(order, byKey)
    ensures order' == AllBlocks(r, files, window) + NewBlocks(r, files, file, window)
    ensures IsIndex(order', byKey') && lineCount == |r.lines(file)|
  {
    var lines := r.lines(file);
    lineCount := |lines|;
    order', byKey' := order, byKey;
    AllBlocksDistinct(r, files, window);
    CutNone(r, files, window, file);
    var start: nat := 0;
    while start + window <= |lines|
      invariant IsIndex(order', byKey') && Underway(r, order, file in files, file, window, start, order')
      decreases |lines| - start
    {
      CutOne(r, order, file in files, file, window, start, order');
      order', byKey' := AddEntry(order', byKey', BlockAt(r, file, lines, window, start));
      start := start + Stride(window);
    }
    assert BlocksFrom(r, file, lines, window, start) == [];
  }

  lemma {:induction false} CutNone(r: Reader, files: seq<string>, window: nat, file: string)
    ensures Underway(r, AllBlocks(r, files, window), file in files, file, window, 0, AllBlocks(r, files, window))
  {
    if file in files {
      forall e | e in BlocksOf(r, file, window) ensures e in AllBlocks(r, files, window) {
        KnownBlocks(r, files, window, file, e);
      }
    }
  }

  lemma {:induction false} OneMoreFile(r: Reader, files: seq<string>, file: string, window: nat)
    ensures AllBlocks(r, files + [file], window) == AllBlocks(r, files, window) + NewBlocks(r, files, file, window)
    ensures TotalLines(r, files + [file]) == TotalLines(r, files) + |r.lines(file)|
  {
    assert (files + [file])[..|files|] == files;
  }

  method IndexBlocks(r: Reader, files: seq<string>, window: nat)
    returns (order: seq<Entry>, byKey: map<string, Entry>, totalLinesAll: nat)
    ensures order == AllBlocks(r, files, window) && IsIndex(order, byKey) && totalLinesAll == TotalLines(r, files)
  {
    order, byKey, totalLinesAll := [], map[], 0;
    for i := 0 to |files|
      invariant order == AllBlocks(r, files[..i], window) && IsIndex(order, byKey) && totalLinesAll == TotalLines(r, files[..i])
    {
      var lineCount: nat;
      order, byKey, lineCount := IndexFile(r, files[..i], files[i], window, order, byKey);
      OneMoreFile(r, files[..i], files[i], window);
      assert files[..i + 1] == files[..i] + [files[i]];
      totalLinesAll := totalLinesAll + lineCount;
    }
    assert files[..|files|] == files;
  }

  // ---------------------------------------------------------------------------------------------
  // Which blocks there are
  // ---------------------------------------------------------------------------------------------

  /** Blocks start half a window apart, rounded down, and one line apart when a window has less than four. */
  lemma {:induction false} StrideIs(window: nat)
    ensures if window < 4 then Stride(window) == 1 else 2 * Stride(window) <= window < 2 * Stride(window) + 2
  {
  }

  /** The lines that are not blank, by position. */
  ghost function SolidPositions(lines: seq<string>, start: nat, end: nat): set<nat>
    requires start <= end <= |lines|
  {
    set i: nat | start <= i < end && !IsEmptyLine(lines[i])
  }

  lemma {:induction false} CountSolidAppend(lines: seq<string>, line: string)
    ensures CountSolid(lines + [line]) == CountSolid(lines) + if IsEmptyLine(line) then 0 else 1
  {
    if lines == [] {
      assert lines + [line] == [line] && [line][1..] == [];
    } else {
      assert (lines + [line])[1..] == lines[1..] + [line];
      CountSolidAppend(lines[1..], line);
    }
  }

  lemma {:induction false} CountSolidIs(lines: seq<string>, start: nat, end: nat)
    requires start <= end <= |lines|
    ensures CountSolid(lines[start..end]) == |SolidPositions(lines, start, end)|
  {
    if start == end {
      assert SolidPositions(lines, start, end) == {};
    } else {
      CountSolidIs(lines, start, end - 1);
      CountSolidAppend(lines[start..end - 1], lines[end - 1]);
      assert lines[start..end] == lines[start..end - 1] + [lines[end - 1]];
      assert SolidPositions(lines, start, end)
             == SolidPositions(lines, start, end - 1) + if IsEmptyLine(lines[end - 1]) then {} else {end - 1};
    }
  }

  /** A whole window of lines of the file that starts at `start`: its place, its text, and how many of its
      lines are not blank. */
  ghost predicate IsWindow(r: Reader, file: string, window: nat, start: nat, e: Entry) {
    && start + window <= |r.lines(file)|
    && e.file == file && e.start == start
    && e.signature == r.sign(Join(r.lines(file)[start..start + window], "\n"))
    && e.solidLines == |SolidPositions(r.lines(file), start, start + window)|
  }

  lemma {:induction false} BlockIsWindow(r: Reader, file: string, window: nat, start: nat, e: Entry)
    requires start + window <= |r.lines(file)|
    ensures e == BlockAt(r, file, r.lines(file), window, start) <==> IsWindow(r, file, window, start, e)
  {
    CountSolidIs(r.lines(file), start, start + window);
  }

  /** `at` is a whole number of strides below `start`. */
  ghost predicate OnStride(start: nat, stride: nat, at: nat) {
    exists k: nat :: at == start + k * stride
  }

  lemma {:induction false} NextStride(start: nat, stride: nat, at: nat)
    ensures OnStride(start, stride, at) <==> at == start || OnStride(start + stride, stride, at)
  {
    if k: nat :| at == start + k * stride {
      if k > 0 {
        assert at == (start + stride) + (k - 1) * stride;
      }
    }
    if k: nat :| at == (start + stride) + k * stride {
      assert at == start + (k + 1) * stride;
    }
    assert start == start + 0 * stride;
  }

  lemma {:induction false} NotBefore(start: nat, stride: nat, at: nat)
    requires OnStride(start, stride, at)
    ensures start <= at
  {
  }

  lemma {:induction false} FromLineIff(r: Reader, file: string, window: nat, start: nat, e: Entry)
    ensures e in BlocksFrom(r, file, r.lines(file), window, start)
            <==> OnStride(start, Stride(window), e.start) && IsWindow(r, file, window, e.start, e)
    decreases |r.lines(file)| - start
  {
    if start + window > |r.lines(file)| {
      if OnStride(start, Stride(window), e.start) {
        NotBefore(start, Stride(window), e.start);
      }
    } else {
      FromLineIff(r, file, window, start + Stride(window), e);
      BlockIsWindow(r, file, window, start, e);
      NextStride(start, Stride(window), e.start);
    }
  }

  /** The blocks are the windows of the listed files that start a whole number of strides down. */
  lemma {:induction false} BlockIff(r: Reader, files: seq<string>, window: nat, e: Entry)
    ensures e in AllBlocks(r, files, window)
            <==> e.file in files && OnStride(0, Stride(window), e.start) && IsWindow(r, e.file, window, e.start, e)
  {
    FromLineIff(r, e.file, window, 0, e);
    if e in AllBlocks(r, files, window) {
      BlockOfItsFile(r, files, window, e);
    } else if e.file in files && e in BlocksOf(r, e.file, window) {
      KnownBlocks(r, files, window, e.file, e);
    }
  }

  lemma {:induction false} BlockOfItsFile(r: Reader, files: seq<string>, window: nat, e: Entry)
    requires e in AllBlocks(r, files, window)
    ensures e in BlocksOf(r, e.file, window)
  {
    var front := files[..|files| - 1];
    if e in AllBlocks(r, front, window) {
      BlockOfItsFile(r, front, window, e);
    }
  }

  function LineCounts(r: Reader, files: seq<string>): (s: seq<int>)
    ensures |s| == |files| && forall i :: 0 <= i < |s| ==> s[i] == |r.lines(files[i])|
  {
    seq(|files|, i requires 0 <= i < |files| => |r.lines(files[i])|)
  }

  /** A file that is listed twice is counted twice. */
  lemma {:induction false} TotalLinesIs(r: Reader, files: seq<string>)
    ensures TotalLines(r, files) == Sum(LineCounts(r, files))
  {
    if files != [] {
      var front, last := files[..|files| - 1], files[|files| - 1];
      TotalLinesIs(r, front);
      assert LineCounts(r, files) == LineCounts(r, front) + [|r.lines(last)|];
      SumAppend(LineCounts(r, front), [|r.lines(last)|]);
      assert [|r.lines(last)|][1..] == [];
    }
  }

  // ---------------------------------------------------------------------------------------------
  // How much the blocks overlap
  // ---------------------------------------------------------------------------------------------

  function SolidLines(s: seq<Entry>): nat {
    if s == [] then 0 else s[0].solidLines + SolidLines(s[1..])
  }

  lemma {:induction false} SolidLinesAppend(a: seq<Entry>, b: seq<Entry>)
    ensures SolidLines(a + b) == SolidLines(a) + SolidLines(b)
  {
    if a == [] {
      assert a + b == b;
    } else {
      assert (a + b)[1..] == a[1..] + b;
      SolidLinesAppend(a[1..], b);
    }
  }

  /** `solid` lines a stride apart fit into `lines` lines a window at a time. */
  ghost predicate Fits(window: nat, solid: nat, lines: nat) {
    Stride(window) * solid <= window * lines
  }

  lemma {:induction false} StepBound(stride: nat, window: nat, solid: nat, rest: nat, left: int)
    requires solid <= window && stride <= left && stride * rest <= window * (left - stride)
    ensures stride * (solid + rest) <= window * left
  {
    calc {
      stride * (solid + rest);
      ==
      stride * solid + stride * rest;
      <=  { assert stride * solid <= stride * window; }
      stride * window + window * (left - stride);
      ==
      window * left;
    }
  }

  /** Along one file the solid lines of the blocks, times the stride, stay below the window times the
      lines that are left. */
  lemma {:induction false} FileOverlap(r: Reader, file: string, lines: seq<string>, window: nat, start: nat)
    requires window > 0 && start <= |lines|
    ensures Fits(window, SolidLines(BlocksFrom(r, file, lines, window, start)), |lines| - start)
    decreases |lines| - start
  {
    var stride := Stride(window);
    if start + window <= |lines| {
      FileOverlap(r, file, lines, window, start + stride);
      var rest := BlocksFrom(r, file, lines, window, start + stride);
      var e := BlockAt(r, file, lines, window, start);
      assert ([e] + rest)[1..] == rest;
      StepBound(stride, window, e.solidLines, SolidLines(rest), |lines| - start);
    }
  }

  lemma {:induction false} SumBound(window: nat, a: nat, b: nat, m: nat, n: nat)
    requires Fits(window, a, m) && Fits(window, b, n)
    ensures Fits(window, a + b, m + n)
  {
    assert Stride(window) * (a + b) == Stride(window) * a + Stride(window) * b;
    assert window * (m + n) == window * m + window * n;
  }

  lemma {:induction false} NewOverlap(r: Reader, files: seq<string>, file: string, window: nat)
    requires window > 0
    ensures Fits(window, SolidLines(NewBlocks(r, files, file, window)), |r.lines(file)|)
  {
    if file in files {
      assert 0 <= window * |r.lines(file)|;
    } else {
      FileOverlap(r, file, r.lines(file), window, 0);
    }
  }

  /** The solid lines of all blocks, times the stride, are at most the window times the lines read. */
  lemma {:induction false} OverlapBound(r: Reader, files: seq<string>, window: nat)
    requires window > 0
    ensures Fits(window, SolidLines(AllBlocks(r, files, window)), TotalLines(r, files))
  {
    if files != [] {
      var front, last := files[..|files| - 1], files[|files| - 1];
      OverlapBound(r, front, window);
      OverlapStep(r, front, last, window);
      assert files == front + [last];
    }
  }

  lemma {:induction false} OverlapStep(r: Reader, front: seq<string>, last: string, window: nat)
    requires window > 0 && Fits(window, SolidLines(AllBlocks(r, front, window)), TotalLines(r, front))
    ensures Fits(window, SolidLines(AllBlocks(r, front + [last], window)), TotalLines(r, front + [last]))
  {
    var old', new', m, n := AllBlocks(r, front, window), NewBlocks(r, front, last, window), TotalLines(r, front), |r.lines(last)|;
    assert Fits(window, SolidLines(old' + new'), m + n) by {
      NewOverlap(r, front, last, window);
      GlueFits(window, old', new', m, n);
    }
    var all, total := AllBlocks(r, front + [last], window), TotalLines(r, front + [last]);
    assert all == old' + new' && total == m + n by {
      OneMoreFile(r, front, last, window);
    }
  }

  lemma {:induction false} GlueFits(window: nat, a: seq<Entry>, b: seq<Entry>, m: nat, n: nat)
    requires Fits(window, SolidLines(a), m) && Fits(window, SolidLines(b), n)
    ensures Fits(window, SolidLines(a + b), m + n)
  {
    SolidLinesAppend(a, b);
    SumBound(window, SolidLines(a), SolidLines(b), m, n);
  }
}
