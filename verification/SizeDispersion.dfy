/** How far the largest test file lies beyond the 95th percentile of the sizes. */
module SizeDispersion {
  import opened Lines
  import opened OrderStatistics
  import opened Seqs

  /** A text has one line more than line ends, so even an empty file has one. */
  type LineCount = n: nat | n >= 1 witness 1

  datatype FileSize = FileSize(file: string, lines: LineCount)

  /** The matches of an optional carriage return and a line feed: one a line feed. */
  function LineEnds(t: string): nat {
    if t == "" then 0 else (if t[0] == '\n' then 1 else 0) + LineEnds(t[1..])
  }

  function Measure(file: string, content: string): FileSize {
    FileSize(file, LineEnds(content) + 1)
  }

  lemma {:induction false} LineEndsFrom(t: string, n: nat)
    requires n <= |t| && forall i :: 0 <= i < n ==> t[i] != '\n'
    ensures LineEnds(t) == LineEnds(t[n..])
  {
    if n > 0 {
      LineEndsFrom(t[1..], n - 1);
      assert t[1..][n - 1..] == t[n..];
    } else {
      assert t[0..] == t;
    }
  }

  /** The lines that are counted are those that splitting gives. */
  lemma {:induction false} MeasuresSplitLines(file: string, content: string)
    ensures Measure(file, content).lines == |Split(content)|
    decreases |content|
  {
    var n := NewlineIndex(content);
    LineEndsFrom(content, n);
    if n < |content| {
      MeasuresSplitLines(file, content[n + 1..]);
      assert content[n..][0] == '\n' && content[n..][1..] == content[n + 1..];
    } else {
      assert content[n..] == "";
    }
  }

  function Sizes(s: seq<FileSize>): (r: seq<nat>)
    ensures |r| == |s| && forall i :: 0 <= i < |s| ==> r[i] == s[i].lines
  {
    if s == [] then [] else [s[0].lines] + Sizes(s[1..])
  }

  /** Stable insertion by size. */
  function InsertBySize(x: FileSize, s: seq<FileSize>): (r: seq<FileSize>)
    ensures |r| == |s| + 1
  {
    if s == [] || x.lines <= s[0].lines then [x] + s else [s[0]] + InsertBySize(x, s[1..])
  }

  function SortBySize(s: seq<FileSize>): (r: seq<FileSize>)
    ensures |r| == |s|
  {
    if s == [] then [] else InsertBySize(s[0], SortBySize(s[1..]))
  }

  datatype Dispersion = Dispersion(value: real, maxFile: Option<string>, maxLines: nat, p95: nat)

  function AtLeastOne(n: nat): (r: nat)
    ensures r >= 1
  {
    if n == 0 then 1 else n
  }

  function SizeDispersion(sizes: seq<FileSize>): Dispersion {
    var sorted := SortBySize(sizes);
    var n := |sorted|;
    if n == 0 then Dispersion(1.0, None, 0, 1)
    else if n <= 5 then Dispersion(1.0, None, sorted[n - 1].lines, sorted[n - 1].lines)
    else
      var p95, largest := sorted[P95Index(n)].lines, sorted[n - 1];
      Dispersion(largest.lines as real / AtLeastOne(p95) as real, Some(largest.file), largest.lines, p95)
  }

  /** The last of the widest files, kept while the files are read. */
  method FindWidest(sizes: seq<FileSize>) returns (widest: Option<FileSize>)
    ensures widest == Widest(sizes)
  {
    widest := None;
    for i := 0 to |sizes|
      invariant widest == Widest(sizes[..i])
    {
      assert sizes[..i + 1][..i] == sizes[..i];
      if widest.None? || sizes[i].lines >= widest.value.lines {
        widest := Some(sizes[i]);
      }
    }
    assert sizes[..|sizes|] == sizes;
  }

  function Widest(sizes: seq<FileSize>): (r: Option<FileSize>)
    ensures r.None? <==> sizes == []
  {
    if sizes == [] then None
    else
      var before, last := Widest(sizes[..|sizes| - 1]), sizes[|sizes| - 1];
      if before.None? || last.lines >= before.value.lines then Some(last) else before
  }

  // ---------------------------------------------------------------------------------------------
  // Sorting files is sorting sizes
  // ---------------------------------------------------------------------------------------------

  lemma {:induction false} InsertSizes(x: FileSize, s: seq<FileSize>)
    ensures Sizes(InsertBySize(x, s)) == InsertUp(x.lines, Sizes(s))
  {
    if s == [] || x.lines <= s[0].lines {
      assert ([x] + s)[1..] == s;
    } else {
      InsertSizes(x, s[1..]);
      assert InsertBySize(x, s)[1..] == InsertBySize(x, s[1..]);
    }
  }

  lemma {:induction false} SortSizes(s: seq<FileSize>)
    ensures Sizes(SortBySize(s)) == SortUp(Sizes(s))
  {
    if s != [] {
      SortSizes(s[1..]);
      InsertSizes(s[0], SortBySize(s[1..]));
    }
  }

  lemma {:induction false} LastIsLargest(s: seq<nat>)
    requires s != []
    ensures AllAtMost(s, SortUp(s)[|s| - 1]) && SortUp(s)[|s| - 1] in s
  {
    var sorted := SortUp(s);
    SortUpSorts(s);
    forall i | 0 <= i < |s| ensures s[i] <= sorted[|s| - 1] {
      assert s[i] in multiset(sorted);
    }
    assert sorted[|s| - 1] in multiset(s);
  }

  /** The ratio is always at least one, and exactly one when no file is larger than the percentile. */
  lemma {:induction false} DispersionBounds(sizes: seq<FileSize>)
    ensures SizeDispersion(sizes).value >= 1.0
    ensures SizeDispersion(sizes).value == 1.0 <==> |sizes| <= 5 || AllAtMost(Sizes(sizes), P95(Sizes(sizes)))
  {
    if |sizes| > 5 {
      var all, n := Sizes(sizes), |sizes|;
      SortSizes(sizes);
      SortUpSorts(all);
      LastIsLargest(all);
      var largest, floor := SortUp(all)[n - 1], AtLeastOne(P95(all));
      assert P95(all) <= largest;
      assert P95(all) >= 1 by {
        assert Sizes(SortBySize(sizes))[P95Index(n)] >= 1;
      }
      var i :| 0 <= i < n && all[i] == largest;
      RatioIs(largest, floor);
    }
  }

  lemma {:induction false} RatioIs(a: nat, b: nat)
    requires b >= 1
    ensures a as real / b as real >= 1.0 <==> a >= b
    ensures a as real / b as real <= 1.0 <==> a <= b
  {
    var q := a as real / b as real;
    assert q * b as real == a as real;
  }

  /** With at most twenty files, or none, the ratio is exactly one. */
  lemma {:induction false} SmallSuitesAreFlat(sizes: seq<FileSize>)
    requires |sizes| <= 20
    ensures SizeDispersion(sizes).value == 1.0
  {
    if sizes != [] {
      var all := Sizes(sizes);
      FewAboveP95(all);
      NoneAbove(all, P95(all));
      DispersionBounds(sizes);
    }
  }

  /** A ratio above one comes from fewer than one file in twenty. */
  lemma {:induction false} FewFilesStandOut(sizes: seq<FileSize>)
    requires |sizes| > 5
    ensures SizeDispersion(sizes).p95 == P95(Sizes(sizes))
    ensures 20 * CountAbove(Sizes(sizes), SizeDispersion(sizes).p95) <= |sizes|
  {
    SortSizes(sizes);
    FewAboveP95(Sizes(sizes));
  }

  // ---------------------------------------------------------------------------------------------
  // The sample belongs to the largest file
  // ---------------------------------------------------------------------------------------------

  /** The last of the largest, by recursion from the front. */
  function LastLargest(s: seq<FileSize>): (r: FileSize)
    requires s != []
  {
    if |s| == 1 then s[0]
    else
      var rest := LastLargest(s[1..]);
      if s[0].lines > rest.lines then s[0] else rest
  }

  lemma {:induction false} LastLargestAppend(s: seq<FileSize>, x: FileSize)
    requires s != []
    ensures LastLargest(s + [x]) == if x.lines >= LastLargest(s).lines then x else LastLargest(s)
  {
    var all := s + [x];
    if |s| == 1 {
      assert all[1..] == [x];
    } else {
      LastLargestAppend(s[1..], x);
      assert all[1..] == s[1..] + [x];
    }
  }

  lemma {:induction false} WidestIsLastLargest(s: seq<FileSize>)
    requires s != []
    ensures Widest(s) == Some(LastLargest(s))
  {
    var front, last := s[..|s| - 1], s[|s| - 1];
    if front != [] {
      WidestIsLastLargest(front);
      LastLargestAppend(front, last);
      assert s == front + [last];
    }
  }

  lemma {:induction false} InsertKeepsLast(x: FileSize, s: seq<FileSize>)
    ensures var r := InsertBySize(x, s);
      r[|s|] == if s == [] || x.lines > LargestLines(s) then x else s[|s| - 1]
  {
    if s != [] && x.lines > s[0].lines {
      InsertKeepsLast(x, s[1..]);
    }
  }

  function LargestLines(s: seq<FileSize>): nat
    requires s != []
  {
    LastLargest(s).lines
  }

  /** The file whose text is sampled while reading is the one that the sorted sizes name as largest. */
  lemma {:induction false} SampleIsFromLargest(sizes: seq<FileSize>)
    requires |sizes| > 5
    ensures SizeDispersion(sizes).maxFile == Some(Widest(sizes).value.file)
  {
    WidestIsLastLargest(sizes);
    SortedLast(sizes);
  }

  /** `f` is the last of the largest files. */
  ghost predicate IsLastLargest(sizes: seq<FileSize>, f: FileSize) {
    exists i :: 0 <= i < |sizes| && sizes[i] == f && LargestAt(sizes, i)
  }

  ghost predicate LargestAt(sizes: seq<FileSize>, i: nat)
    requires i < |sizes|
  {
    forall j :: 0 <= j < |sizes| ==> sizes[j].lines <= sizes[i].lines && (j > i ==> sizes[j].lines < sizes[i].lines)
  }

  lemma {:induction false} LastLargestIs(s: seq<FileSize>) returns (i: nat)
    requires s != []
    ensures i < |s| && s[i] == LastLargest(s) && LargestAt(s, i)
  {
    i := 0;
    if |s| > 1 {
      var at := LastLargestIs(s[1..]);
      assert s[1..][at] == s[at + 1];
      assert forall j :: 0 < j < |s| ==> s[j] == s[1..][j - 1];
      if s[0].lines <= s[at + 1].lines {
        i := at + 1;
      }
    }
  }

  /** Every field of the result: up to five files there is nothing to measure; beyond, the value is the
      size of the largest file over the percentile of the sizes. */
  lemma {:induction false} DispersionIs(sizes: seq<FileSize>)
    ensures var d, all := SizeDispersion(sizes), Sizes(sizes);
      && (sizes == [] ==> d == Dispersion(1.0, None, 0, 1))
      && (sizes != [] ==> d.maxLines in all && AllAtMost(all, d.maxLines))
      && (0 < |sizes| <= 5 ==> d.value == 1.0 && d.maxFile.None? && d.p95 == d.maxLines)
      && (|sizes| > 5 ==>
            && IsP95(all, d.p95) && d.value * d.p95 as real == d.maxLines as real
            && exists f :: IsLastLargest(sizes, f) && d.maxFile == Some(f.file))
  {
    if sizes != [] {
      assert SizeDispersion(sizes).maxLines == Sizes(SortBySize(sizes))[|sizes| - 1];
      SortSizes(sizes);
      LastIsLargest(Sizes(sizes));
    }
    if |sizes| > 5 {
      PercentileOf(sizes);
      RatioOf(sizes);
      LargestIsNamed(sizes);
    }
  }

  lemma {:induction false} PercentileOf(sizes: seq<FileSize>)
    requires |sizes| > 5
    ensures IsP95(Sizes(sizes), SizeDispersion(sizes).p95)
  {
    FewFilesStandOut(sizes);
    P95Iff(Sizes(sizes), SizeDispersion(sizes).p95);
  }

  lemma {:induction false} RatioOf(sizes: seq<FileSize>)
    requires |sizes| > 5
    ensures var d := SizeDispersion(sizes); d.value * d.p95 as real == d.maxLines as real
  {
    var sorted := SortBySize(sizes);
    Quotient(sorted[|sizes| - 1].lines, sorted[P95Index(|sizes|)].lines);
  }

  lemma {:induction false} Quotient(a: nat, b: LineCount)
    ensures (a as real / AtLeastOne(b) as real) * b as real == a as real
  {
    assert AtLeastOne(b) == b;
  }

  lemma {:induction false} LargestIsNamed(sizes: seq<FileSize>)
    requires |sizes| > 5
    ensures exists f :: IsLastLargest(sizes, f) && SizeDispersion(sizes).maxFile == Some(f.file)
  {
    var i := LastLargestIs(sizes);
    SortedLast(sizes);
    assert IsLastLargest(sizes, sizes[i]);
  }

  lemma {:induction false} InsertLargest(x: FileSize, s: seq<FileSize>)
    requires s != []
    ensures LargestLines(InsertBySize(x, s)) == if x.lines > LargestLines(s) then x.lines else LargestLines(s)
  {
    if x.lines <= s[0].lines {
      assert ([x] + s)[1..] == s;
    } else if |s| == 1 {
      var two := [s[0], x];
      assert InsertBySize(x, s) == two && two[1..] == [x];
      assert LastLargest(two) == x;
    } else {
      InsertLargest(x, s[1..]);
      assert InsertBySize(x, s)[1..] == InsertBySize(x, s[1..]);
    }
  }

  lemma {:induction false} SortLargest(s: seq<FileSize>)
    requires s != []
    ensures LargestLines(SortBySize(s)) == LargestLines(s)
  {
    if |s| == 1 {
      assert s[1..] == [];
    } else {
      SortLargest(s[1..]);
      InsertLargest(s[0], SortBySize(s[1..]));
    }
  }

  lemma {:induction false} SortedLast(s: seq<FileSize>)
    requires s != []
    ensures SortBySize(s)[|s| - 1] == LastLargest(s)
  {
    if |s| > 1 {
      SortedLast(s[1..]);
      SortLargest(s[1..]);
      InsertKeepsLast(s[0], SortBySize(s[1..]));
    }
  }
}
