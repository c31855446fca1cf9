/** Charging repeated blocks: the classification of a block, the buckets of the score, and the
    evidence per file. */
module SimilarityAccounting {
  import opened BlockIndex
  import opened BlockSimilarity
  import opened Seqs

  /** Line numbers count from one; without a recognised test case there are no case-body lines. */
  datatype LineEvidence = LineEvidence(assertionLines: set<nat>, callLines: set<nat>, caseBodyLines: Option<set<nat>>)

  datatype Semantics = Assertion | CaseBody | Assembly | Unclassified

  predicate Meets(startLine: nat, endLine: nat, lines: set<nat>) {
    exists line: nat :: startLine <= line <= endLine && line in lines
  }

  method Intersects(startLine: nat, endLine: nat, lines: set<nat>) returns (b: bool)
    ensures b == Meets(startLine, endLine, lines)
  {
    var line := startLine;
    while line <= endLine
      invariant startLine <= line && forall l :: startLine <= l < line ==> l !in lines
      decreases endLine - line
    {
      if line in lines {
        return true;
      }
      line := line + 1;
    }
    b := false;
  }

  function Classify(startLine: nat, endLine: nat, evidence: LineEvidence): Semantics {
    if Meets(startLine, endLine, evidence.assertionLines) then Assertion
    else if evidence.caseBodyLines.Some? then
      if Meets(startLine, endLine, evidence.caseBodyLines.value) then CaseBody else Assembly
    else if Meets(startLine, endLine, evidence.callLines) then Unclassified
    else Assembly
  }

  method ClassifyBlockSemantics(startLine: nat, lastLine: nat, evidence: LineEvidence) returns (s: Semantics)
    ensures s == Classify(startLine, if startLine >= lastLine then startLine else lastLine, evidence)
  {
    var endLine := if startLine >= lastLine then startLine else lastLine;
    var asserts := Intersects(startLine, endLine, evidence.assertionLines);
    if asserts {
      return Assertion;
    }
    if evidence.caseBodyLines.Some? {
      var inside := Intersects(startLine, endLine, evidence.caseBodyLines.value);
      return if inside then CaseBody else Assembly;
    }
    var calls := Intersects(startLine, endLine, evidence.callLines);
    s := if calls then Unclassified else Assembly;
  }

  /** Where the lines of a repeated block go; a file without evidence is charged as assembly. */
  function Verdict(e: Entry, evidence: map<string, LineEvidence>, window: nat): Semantics {
    if e.file !in evidence then Assembly
    else Classify(e.start + 1, if window > 0 then e.start + window else e.start + 1, evidence[e.file])
  }

  datatype Buckets = Buckets(assembly: nat, unclassified: nat, assertion: nat, caseBody: nat, denominator: nat,
                             filesWithoutBlockEvidence: nat, filesWithoutCaseSpans: nat)

  function Charged(b: Buckets): nat {
    b.assembly + b.unclassified
  }

  // ---------------------------------------------------------------------------------------------
  // Sums over repeated blocks
  // ---------------------------------------------------------------------------------------------

  ghost predicate Known(keys: seq<string>, byKey: map<string, Entry>) {
    forall key :: key in keys ==> key in byKey
  }

  /** The solid lines of the listed blocks with that verdict. */
  function LinesWith(keys: seq<string>, byKey: map<string, Entry>, evidence: map<string, LineEvidence>, window: nat, s: Semantics): nat
    requires Known(keys, byKey)
  {
    if keys == [] then 0
    else
      var front, last := keys[..|keys| - 1], byKey[keys[|keys| - 1]];
      assert forall key :: key in front ==> key in keys;
      LinesWith(front, byKey, evidence, window, s) + if Verdict(last, evidence, window) == s then last.solidLines else 0
  }

  function AllLines(keys: seq<string>, byKey: map<string, Entry>): nat
    requires Known(keys, byKey)
  {
    if keys == [] then 0
    else
      var front := keys[..|keys| - 1];
      assert forall key :: key in front ==> key in keys;
      AllLines(front, byKey) + byKey[keys[|keys| - 1]].solidLines
  }

  /** The lines shown as evidence for one file: everything but assertion blocks. */
  function ShownLines(keys: seq<string>, byKey: map<string, Entry>, evidence: map<string, LineEvidence>, window: nat, file: string): nat
    requires Known(keys, byKey)
  {
    if keys == [] then 0
    else
      var front, last := keys[..|keys| - 1], byKey[keys[|keys| - 1]];
      assert forall key :: key in front ==> key in keys;
      ShownLines(front, byKey, evidence, window, file)
      + if last.file == file && Verdict(last, evidence, window) != Assertion then last.solidLines else 0
  }

  /** Every line of a repeated block falls into exactly one bucket. */
  lemma {:induction false} BucketsCoverAll(keys: seq<string>, byKey: map<string, Entry>, evidence: map<string, LineEvidence>, window: nat)
    requires Known(keys, byKey)
    ensures LinesWith(keys, byKey, evidence, window, Assembly) + LinesWith(keys, byKey, evidence, window, Unclassified)
            + LinesWith(keys, byKey, evidence, window, Assertion) + LinesWith(keys, byKey, evidence, window, CaseBody)
            == AllLines(keys, byKey)
  {
    if keys != [] {
      assert forall key :: key in keys[..|keys| - 1] ==> key in keys;
      BucketsCoverAll(keys[..|keys| - 1], byKey, evidence, window);
    }
  }

  lemma {:induction false} WithoutOne(keys: seq<string>, i: nat, byKey: map<string, Entry>)
    requires Known(keys, byKey) && i < |keys|
    ensures Known(keys[..i] + keys[i + 1..], byKey)
    ensures AllLines(keys, byKey) == byKey[keys[i]].solidLines + AllLines(keys[..i] + keys[i + 1..], byKey)
  {
    var n := |keys| - 1;
    var rest := keys[..i] + keys[i + 1..];
    if i == n {
      assert rest == keys[..n];
    } else {
      var front := keys[..n];
      assert forall key :: key in front ==> key in keys;
      WithoutOne(front, i, byKey);
      assert rest[..n - 1] == front[..i] + front[i + 1..] && rest[n - 1] == keys[n];
    }
  }

  /** Distinct keys of indexed blocks never add up to more than all blocks together. */
  lemma {:induction false} PartOfAll(keys: seq<string>, byKey: map<string, Entry>, order: seq<Entry>)
    requires Distinct(keys) && Known(keys, byKey)
    requires forall key :: key in keys ==> byKey[key] in order && key == KeyOf(byKey[key].file, byKey[key].start)
    ensures AllLines(keys, byKey) <= SolidLines(order)
    decreases |order|
  {
    assert keys != [] ==> keys[0] in keys;
    if order != [] {
      var key := KeyOf(order[0].file, order[0].start);
      assert order == [order[0]] + order[1..];
      if key in keys && byKey[key] == order[0] {
        var i :| 0 <= i < |keys| && keys[i] == key;
        WithoutOne(keys, i, byKey);
        PartOfAll(keys[..i] + keys[i + 1..], byKey, order[1..]);
      } else {
        PartOfAll(keys, byKey, order[1..]);
      }
    }
  }

  // ---------------------------------------------------------------------------------------------
  // The score's buckets
  // ---------------------------------------------------------------------------------------------

  function Documents(order: seq<Entry>): (r: seq<Block>)
    ensures |r| == |order|
    ensures forall i :: 0 <= i < |r| ==> r[i] == Block(KeyOf(order[i].file, order[i].start), order[i].signature)
  {
    if order == [] then [] else [Block(KeyOf(order[0].file, order[0].start), order[0].signature)] + Documents(order[1..])
  }

  lemma {:induction false} DocumentsAreDistinct(order: seq<Entry>)
    requires BlocksDistinct(order)
    ensures KeysDistinct(Documents(order))
  {
    var docs := Documents(order);
    forall i, j | 0 <= i < j < |docs| ensures docs[i].key != docs[j].key {
      if docs[i].key == docs[j].key {
        KeyIsUnique(order[i].file, order[i].start, order[j].file, order[j].start);
      }
    }
  }

  /** The repeated blocks of the files, each once, together with the index that finds them. */
  ghost predicate AreRepeated(r: Reader, files: seq<string>, window: nat, threshold: real, keys: seq<string>, byKey: map<string, Entry>) {
    && IsIndex(AllBlocks(r, files, window), byKey)
    && Distinct(keys) && Known(keys, byKey)
    && forall key :: key in keys <==> Repeated(Documents(AllBlocks(r, files, window)), threshold, key)
  }

  method FindRepeated(r: Reader, files: seq<string>, window: nat, threshold: real)
    returns (repeated: seq<string>, byKey: map<string, Entry>, totalLinesAll: nat)
    ensures AreRepeated(r, files, window, threshold, repeated, byKey) && totalLinesAll == TotalLines(r, files)
  {
    var order: seq<Entry>;
    order, byKey, totalLinesAll := IndexBlocks(r, files, window);
    AllBlocksDistinct(r, files, window);
    DocumentsAreDistinct(order);
    repeated := RepeatedBlocksOf(Documents(order), threshold);
    forall key | key in repeated ensures key in byKey {
      RepeatedIsIndexed(order, byKey, threshold, key);
    }
  }

  lemma {:induction false} RepeatedIsIndexed(order: seq<Entry>, byKey: map<string, Entry>, threshold: real, key: string)
    requires IsIndex(order, byKey) && Repeated(Documents(order), threshold, key)
    ensures key in byKey
  {
    var docs := Documents(order);
    var a, b :| a in docs && b in docs && a.key == key && Similar(a, b, threshold);
    var i :| 0 <= i < |docs| && docs[i] == a;
    assert order[i] in order;
  }

  /** The files of the listed blocks that have no evidence at all. */
  function FilesWithoutEvidence(keys: seq<string>, byKey: map<string, Entry>, evidence: map<string, LineEvidence>): set<string>
    requires Known(keys, byKey)
  {
    set key | key in keys && byKey[key].file !in evidence :: byKey[key].file
  }

  function FilesWithoutCases(keys: seq<string>, byKey: map<string, Entry>, evidence: map<string, LineEvidence>): set<string>
    requires Known(keys, byKey)
  {
    set key | key in keys && byKey[key].file in evidence && evidence[byKey[key].file].caseBodyLines.None? :: byKey[key].file
  }

  /** The four sums over a list of keys. */
  function SumsOf(keys: seq<string>, byKey: map<string, Entry>, evidence: map<string, LineEvidence>, window: nat): (nat, nat, nat, nat)
    requires Known(keys, byKey)
  {
    (LinesWith(keys, byKey, evidence, window, Assembly), LinesWith(keys, byKey, evidence, window, Unclassified),
     LinesWith(keys, byKey, evidence, window, Assertion), LinesWith(keys, byKey, evidence, window, CaseBody))
  }

  lemma {:induction false} OneMoreSum(keys: seq<string>, i: nat, byKey: map<string, Entry>, evidence: map<string, LineEvidence>, window: nat)
    requires Known(keys, byKey) && i < |keys|
    ensures Known(keys[..i], byKey) && Known(keys[..i + 1], byKey) && keys[i] in byKey
    ensures var (a, u, t, c) := SumsOf(keys[..i], byKey, evidence, window);
      var e := byKey[keys[i]];
      SumsOf(keys[..i + 1], byKey, evidence, window)
      == match Verdict(e, evidence, window)
         case Assembly => (a + e.solidLines, u, t, c)
         case Unclassified => (a, u + e.solidLines, t, c)
         case Assertion => (a, u, t + e.solidLines, c)
         case CaseBody => (a, u, t, c + e.solidLines)
  {
    assert keys[..i + 1][..i] == keys[..i];
  }

  method ChargeBlocks(keys: seq<string>, byKey: map<string, Entry>, evidence: map<string, LineEvidence>, window: nat)
    returns (assembly: nat, unclassified: nat, assertion: nat, caseBody: nat)
    requires Known(keys, byKey)
    requires forall key :: key in keys ==> key == KeyOf(byKey[key].file, byKey[key].start)
    ensures (assembly, unclassified, assertion, caseBody) == SumsOf(keys, byKey, evidence, window)
  {
    assembly, unclassified, assertion, caseBody := 0, 0, 0, 0;
    for i := 0 to |keys|
      invariant Known(keys[..i], byKey)
      invariant (assembly, unclassified, assertion, caseBody) == SumsOf(keys[..i], byKey, evidence, window)
    {
      OneMoreSum(keys, i, byKey, evidence, window);
      var e := byKey[keys[i]];
      FileOfKey(e.file, e.start);
      var file := FileOfBlock(keys[i]);
      if file !in evidence {
        assembly := assembly + e.solidLines;
      } else {
        var startLine := e.start + 1;
        var semantics := ClassifyBlockSemantics(startLine, startLine + window - 1, evidence[file]);
        match semantics {
          case Assertion => assertion := assertion + e.solidLines;
          case CaseBody => caseBody := caseBody + e.solidLines;
          case Unclassified => unclassified := unclassified + e.solidLines;
          case Assembly => assembly := assembly + e.solidLines;
        }
      }
    }
    assert keys[..|keys|] == keys;
  }

  method CollectFiles(keys: seq<string>, byKey: map<string, Entry>, evidence: map<string, LineEvidence>)
    returns (withoutEvidence: set<string>, withoutCases: set<string>)
    requires Known(keys, byKey)
    requires forall key :: key in keys ==> key == KeyOf(byKey[key].file, byKey[key].start)
    ensures withoutEvidence == FilesWithoutEvidence(keys, byKey, evidence)
    ensures withoutCases == FilesWithoutCases(keys, byKey, evidence)
  {
    withoutEvidence, withoutCases := {}, {};
    for i := 0 to |keys|
      invariant Known(keys[..i], byKey)
      invariant withoutEvidence == FilesWithoutEvidence(keys[..i], byKey, evidence)
      invariant withoutCases == FilesWithoutCases(keys[..i], byKey, evidence)
    {
      assert keys[..i + 1] == keys[..i] + [keys[i]] && keys[i] in keys;
      FileOfKey(byKey[keys[i]].file, byKey[keys[i]].start);
      var file := FileOfBlock(keys[i]);
      if file !in evidence {
        withoutEvidence := withoutEvidence + {file};
      } else if evidence[file].caseBodyLines.None? {
        withoutCases := withoutCases + {file};
      }
    }
    assert keys[..|keys|] == keys;
  }

  /** The buckets hold the four sums, the denominator, and the two counts of files. */
  ghost predicate AreBuckets(b: Buckets, r: Reader, files: seq<string>, evidence: map<string, LineEvidence>, window: nat,
                             keys: seq<string>, byKey: map<string, Entry>)
    requires Known(keys, byKey)
  {
    && (b.assembly, b.unclassified, b.assertion, b.caseBody) == SumsOf(keys, byKey, evidence, window)
    && b.denominator == TotalLines(r, files)
    && b.filesWithoutBlockEvidence == |FilesWithoutEvidence(keys, byKey, evidence)|
    && b.filesWithoutCaseSpans == |FilesWithoutCases(keys, byKey, evidence)|
  }

  /** The buckets are those of the repeated blocks. */
  ghost predicate IsScore(b: Buckets, r: Reader, files: seq<string>, evidence: map<string, LineEvidence>, window: nat, threshold: real) {
    exists keys, byKey ::
      AreRepeated(r, files, window, threshold, keys, byKey) && AreBuckets(b, r, files, evidence, window, keys, byKey)
  }

  method CodeSimilarityBuckets(r: Reader, files: seq<string>, evidence: map<string, LineEvidence>, window: nat, threshold: real)
    returns (b: Buckets)
    ensures IsScore(b, r, files, evidence, window, threshold)
  {
    var keys, index, total := FindRepeated(r, files, window, threshold);
    var assembly, unclassified, assertion, caseBody := ChargeBlocks(keys, index, evidence, window);
    var withoutEvidence, withoutCases := CollectFiles(keys, index, evidence);
    CasesNeedEvidence(keys, index, evidence);
    b := Buckets(assembly, unclassified, assertion, caseBody, total, |withoutEvidence|, |withoutCases - withoutEvidence|);
    assert AreBuckets(b, r, files, evidence, window, keys, index);
  }

  lemma {:induction false} CasesNeedEvidence(keys: seq<string>, byKey: map<string, Entry>, evidence: map<string, LineEvidence>)
    requires Known(keys, byKey)
    ensures FilesWithoutCases(keys, byKey, evidence) - FilesWithoutEvidence(keys, byKey, evidence) == FilesWithoutCases(keys, byKey, evidence)
  {
  }

  /** The solid lines of the repeated blocks go into the four buckets without loss or double counting,
      and with windows of eight lines they are at most twice the denominator. */
  lemma {:induction false} SimilarityAccounts(b: Buckets, r: Reader, files: seq<string>, evidence: map<string, LineEvidence>, window: nat,
                                              threshold: real) returns (keys: seq<string>, byKey: map<string, Entry>)
    requires window > 0 && IsScore(b, r, files, evidence, window, threshold)
    ensures AreRepeated(r, files, window, threshold, keys, byKey)
    ensures Charged(b) + b.assertion + b.caseBody == AllLines(keys, byKey)
    ensures Fits(window, AllLines(keys, byKey), b.denominator)
    ensures window == 8 ==> Charged(b) + b.assertion + b.caseBody <= 2 * b.denominator
  {
    keys, byKey :| AreRepeated(r, files, window, threshold, keys, byKey) && AreBuckets(b, r, files, evidence, window, keys, byKey);
    BucketsCoverAll(keys, byKey, evidence, window);
    RepeatedFit(r, files, window, threshold, keys, byKey);
  }

  lemma {:induction false} RepeatedFit(r: Reader, files: seq<string>, window: nat, threshold: real, keys: seq<string>, byKey: map<string, Entry>)
    requires window > 0 && AreRepeated(r, files, window, threshold, keys, byKey)
    ensures Fits(window, AllLines(keys, byKey), TotalLines(r, files))
    ensures window == 8 ==> AllLines(keys, byKey) <= 2 * TotalLines(r, files)
  {
    var order := AllBlocks(r, files, window);
    PartOfAll(keys, byKey, order);
    OverlapBound(r, files, window);
    FitsFewer(window, AllLines(keys, byKey), SolidLines(order), TotalLines(r, files));
  }

  lemma {:induction false} FitsFewer(window: nat, fewer: nat, solid: nat, lines: nat)
    requires fewer <= solid && Fits(window, solid, lines)
    ensures Fits(window, fewer, lines)
    ensures window == 8 ==> fewer <= 2 * lines
  {
    assert Stride(window) * fewer <= Stride(window) * solid;
  }

  // ---------------------------------------------------------------------------------------------
  // The evidence per file
  // ---------------------------------------------------------------------------------------------

  /** One file's row: its lines, and the first of its blocks with the most of them. */
  datatype Row = Row(lines: nat, sampleKey: string, sampleLines: nat)

  predicate Shown(e: Entry, evidence: map<string, LineEvidence>, window: nat) {
    Verdict(e, evidence, window) != Assertion
  }

  /** The key of the first shown block of the file that no shown block of it exceeds. */
  ghost predicate IsFirstLongest(keys: seq<string>, byKey: map<string, Entry>, evidence: map<string, LineEvidence>, window: nat, file: string,
                                 key: string)
    requires Known(keys, byKey)
  {
    && key in keys && byKey[key].file == file && Shown(byKey[key], evidence, window)
    && (forall k :: k in keys && byKey[k].file == file && Shown(byKey[k], evidence, window) ==> byKey[k].solidLines <= byKey[key].solidLines)
    && exists i :: 0 <= i < |keys| && keys[i] == key && AllShorter(keys[..i], byKey, evidence, window, file, byKey[key].solidLines)
  }

  ghost predicate AllShorter(keys: seq<string>, byKey: map<string, Entry>, evidence: map<string, LineEvidence>, window: nat, file: string,
                             lines: nat)
  {
    forall k :: k in keys && k in byKey && byKey[k].file == file && Shown(byKey[k], evidence, window) ==> byKey[k].solidLines < lines
  }

  /** The row sums the shown blocks of its file, and its sample is the first of the longest ones. */
  ghost predicate IsRow(keys: seq<string>, byKey: map<string, Entry>, evidence: map<string, LineEvidence>, window: nat, file: string, row: Row)
    requires Known(keys, byKey)
  {
    && row.lines == ShownLines(keys, byKey, evidence, window, file)
    && IsFirstLongest(keys, byKey, evidence, window, file, row.sampleKey)
    && row.sampleLines == byKey[row.sampleKey].solidLines
  }

  ghost predicate AreRows(keys: seq<string>, byKey: map<string, Entry>, evidence: map<string, LineEvidence>, window: nat,
                          order: seq<string>, rows: map<string, Row>)
    requires Known(keys, byKey)
  {
    && RowsCover(keys, byKey, evidence, window, order, rows)
    && forall file :: file in rows ==> IsRow(keys, byKey, evidence, window, file, rows[file])
  }

  /** The listed files are those with shown blocks and have one row each. */
  ghost predicate RowsCover(keys: seq<string>, byKey: map<string, Entry>, evidence: map<string, LineEvidence>, window: nat,
                            order: seq<string>, rows: map<string, Row>)
    requires Known(keys, byKey)
  {
    && Distinct(order) && (forall file :: file in order <==> file in rows)
    && forall key :: key in keys && Shown(byKey[key], evidence, window) ==> byKey[key].file in rows
  }

  lemma {:induction false} NothingShown(keys: seq<string>, byKey: map<string, Entry>, evidence: map<string, LineEvidence>, window: nat, file: string)
    requires Known(keys, byKey)
    requires forall key :: key in keys && byKey[key].file == file ==> !Shown(byKey[key], evidence, window)
    ensures ShownLines(keys, byKey, evidence, window, file) == 0
  {
    if keys != [] {
      assert forall key :: key in keys[..|keys| - 1] ==> key in keys;
      assert keys[|keys| - 1] in keys;
      NothingShown(keys[..|keys| - 1], byKey, evidence, window, file);
    }
  }

  lemma {:induction false} OneMoreShown(keys: seq<string>, key: string, byKey: map<string, Entry>, evidence: map<string, LineEvidence>,
                                        window: nat, file: string)
    requires Known(keys + [key], byKey) && Known(keys, byKey) && key in byKey
    ensures ShownLines(keys + [key], byKey, evidence, window, file) == ShownLines(keys, byKey, evidence, window, file)
            + if byKey[key].file == file && Shown(byKey[key], evidence, window) then byKey[key].solidLines else 0
  {
    assert (keys + [key])[..|keys|] == keys;
  }

  lemma {:induction false} RowKept(keys: seq<string>, key: string, byKey: map<string, Entry>, evidence: map<string, LineEvidence>, window: nat,
                                   file: string, row: Row)
    requires Known(keys + [key], byKey) && Known(keys, byKey) && key in byKey && IsRow(keys, byKey, evidence, window, file, row)
    requires byKey[key].file != file || !Shown(byKey[key], evidence, window)
    ensures IsRow(keys + [key], byKey, evidence, window, file, row)
  {
    OneMoreShown(keys, key, byKey, evidence, window, file);
    FirstKept(keys, key, byKey, evidence, window, file, row.sampleKey);
  }

  /** A further block that is not longer leaves the first longest one in place. */
  lemma {:induction false} FirstKept(keys: seq<string>, key: string, byKey: map<string, Entry>, evidence: map<string, LineEvidence>, window: nat,
                                     file: string, sample: string)
    requires Known(keys + [key], byKey) && Known(keys, byKey) && key in byKey
    requires IsFirstLongest(keys, byKey, evidence, window, file, sample)
    requires byKey[key].file == file && Shown(byKey[key], evidence, window) ==> byKey[key].solidLines <= byKey[sample].solidLines
    ensures IsFirstLongest(keys + [key], byKey, evidence, window, file, sample)
  {
    var i :| 0 <= i < |keys| && keys[i] == sample && AllShorter(keys[..i], byKey, evidence, window, file, byKey[sample].solidLines);
    assert (keys + [key])[i] == sample && (keys + [key])[..i] == keys[..i];
  }

  /** A block longer than all before it is the first longest one. */
  lemma {:induction false} FirstReplaced(keys: seq<string>, key: string, byKey: map<string, Entry>, evidence: map<string, LineEvidence>,
                                         window: nat)
    requires Known(keys + [key], byKey) && Known(keys, byKey) && key in byKey && Shown(byKey[key], evidence, window)
    requires AllShorter(keys, byKey, evidence, window, byKey[key].file, byKey[key].solidLines)
    ensures IsFirstLongest(keys + [key], byKey, evidence, window, byKey[key].file, key)
  {
    assert (keys + [key])[|keys|] == key && (keys + [key])[..|keys|] == keys;
  }

  /** A longer block replaces the sample; an equally long one does not. */
  function Grown(row: Row, key: string, lines: nat): Row {
    if lines > row.sampleLines then Row(row.lines + lines, key, lines) else row.(lines := row.lines + lines)
  }

  lemma {:induction false} RowGrows(keys: seq<string>, key: string, byKey: map<string, Entry>, evidence: map<string, LineEvidence>, window: nat, row: Row)
    requires Known(keys + [key], byKey) && Known(keys, byKey) && key in byKey && Shown(byKey[key], evidence, window)
    requires IsRow(keys, byKey, evidence, window, byKey[key].file, row)
    ensures IsRow(keys + [key], byKey, evidence, window, byKey[key].file, Grown(row, key, byKey[key].solidLines))
  {
    var file, after := byKey[key].file, Grown(row, key, byKey[key].solidLines);
    assert after.lines == ShownLines(keys + [key], byKey, evidence, window, file) by {
      OneMoreShown(keys, key, byKey, evidence, window, file);
    }
    assert IsFirstLongest(keys + [key], byKey, evidence, window, file, after.sampleKey) by {
      SampleGrows(keys, key, byKey, evidence, window, row.sampleKey);
    }
    assert after.sampleLines == byKey[after.sampleKey].solidLines;
  }

  lemma {:induction false} SampleGrows(keys: seq<string>, key: string, byKey: map<string, Entry>, evidence: map<string, LineEvidence>,
                                       window: nat, sample: string)
    requires Known(keys + [key], byKey) && Known(keys, byKey) && key in byKey && Shown(byKey[key], evidence, window)
    requires IsFirstLongest(keys, byKey, evidence, window, byKey[key].file, sample)
    ensures IsFirstLongest(keys + [key], byKey, evidence, window, byKey[key].file,
                           if byKey[key].solidLines > byKey[sample].solidLines then key else sample)
  {
    if byKey[key].solidLines > byKey[sample].solidLines {
      FirstReplaced(keys, key, byKey, evidence, window);
    } else {
      FirstKept(keys, key, byKey, evidence, window, byKey[key].file, sample);
    }
  }

  lemma {:induction false} RowStarts(keys: seq<string>, key: string, byKey: map<string, Entry>, evidence: map<string, LineEvidence>, window: nat)
    requires Known(keys + [key], byKey) && Known(keys, byKey) && key in byKey && Shown(byKey[key], evidence, window)
    requires forall k :: k in keys && byKey[k].file == byKey[key].file ==> !Shown(byKey[k], evidence, window)
    ensures IsRow(keys + [key], byKey, evidence, window, byKey[key].file, Row(byKey[key].solidLines, key, byKey[key].solidLines))
  {
    NothingShown(keys, byKey, evidence, window, byKey[key].file);
    OneMoreShown(keys, key, byKey, evidence, window, byKey[key].file);
    FirstReplaced(keys, key, byKey, evidence, window);
  }

  lemma {:induction false} OtherRowsKept(keys: seq<string>, key: string, byKey: map<string, Entry>, evidence: map<string, LineEvidence>,
                                         window: nat, order: seq<string>, rows: map<string, Row>)
    requires Known(keys + [key], byKey) && Known(keys, byKey) && key in byKey && AreRows(keys, byKey, evidence, window, order, rows)
    ensures forall file :: file in rows && (byKey[key].file != file || !Shown(byKey[key], evidence, window)) ==>
              IsRow(keys + [key], byKey, evidence, window, file, rows[file])
  {
    forall file | file in rows && (byKey[key].file != file || !Shown(byKey[key], evidence, window))
      ensures IsRow(keys + [key], byKey, evidence, window, file, rows[file])
    {
      RowKept(keys, key, byKey, evidence, window, file, rows[file]);
    }
  }

  method IsShown(e: Entry, evidence: map<string, LineEvidence>, window: nat) returns (b: bool)
    ensures b == Shown(e, evidence, window)
  {
    b := true;
    if e.file in evidence {
      var semantics := ClassifyBlockSemantics(e.start + 1, e.start + window, evidence[e.file]);
      b := semantics != Assertion;
    }
  }

  /** Adds one block to the rows; a block of assertions is skipped. */
  method AddToRow(ghost keys: seq<string>, key: string, byKey: map<string, Entry>, evidence: map<string, LineEvidence>, window: nat,
                  order: seq<string>, rows: map<string, Row>) returns (order': seq<string>, rows': map<string, Row>)
    requires Known(keys + [key], byKey) && Known(keys, byKey) && key in byKey && AreRows(keys, byKey, evidence, window, order, rows)
    requires key == KeyOf(byKey[key].file, byKey[key].start)
    ensures AreRows(keys + [key], byKey, evidence, window, order', rows')
  {
    order', rows' := order, rows;
    var e := byKey[key];
    FileOfKey(e.file, e.start);
    OtherRowsKept(keys, key, byKey, evidence, window, order, rows);
    var file := FileOfBlock(key);
    var shown := IsShown(e, evidence, window);
    if !shown {
      return;
    }
    if file in rows {
      RowGrows(keys, key, byKey, evidence, window, rows[file]);
      rows' := rows[file := Grown(rows[file], key, e.solidLines)];
    } else {
      RowStarts(keys, key, byKey, evidence, window);
      rows' := rows[file := Row(e.solidLines, key, e.solidLines)];
      order' := order + [file];
    }
    RowsUpdated(keys, key, byKey, evidence, window, order, rows, order', rows'[file]);
  }

  lemma {:induction false} RowsUpdated(keys: seq<string>, key: string, byKey: map<string, Entry>, evidence: map<string, LineEvidence>,
                                       window: nat, order: seq<string>, rows: map<string, Row>, order': seq<string>, row: Row)
    requires Known(keys + [key], byKey) && Known(keys, byKey) && key in byKey && AreRows(keys, byKey, evidence, window, order, rows)
    requires order' == if byKey[key].file in rows then order else order + [byKey[key].file]
    requires IsRow(keys + [key], byKey, evidence, window, byKey[key].file, row)
    requires forall file :: file in rows && file != byKey[key].file ==> IsRow(keys + [key], byKey, evidence, window, file, rows[file])
    ensures AreRows(keys + [key], byKey, evidence, window, order', rows[byKey[key].file := row])
  {
    CoverGrows(keys, key, byKey, evidence, window, order, rows, order', row);
    var after := rows[byKey[key].file := row];
    forall file | file in after ensures IsRow(keys + [key], byKey, evidence, window, file, after[file]) {
      if file != byKey[key].file {
        assert file in rows && after[file] == rows[file];
      }
    }
  }

  lemma {:induction false} CoverGrows(keys: seq<string>, key: string, byKey: map<string, Entry>, evidence: map<string, LineEvidence>,
                                      window: nat, order: seq<string>, rows: map<string, Row>, order': seq<string>, row: Row)
    requires Known(keys + [key], byKey) && Known(keys, byKey) && key in byKey && RowsCover(keys, byKey, evidence, window, order, rows)
    requires order' == if byKey[key].file in rows then order else order + [byKey[key].file]
    ensures RowsCover(keys + [key], byKey, evidence, window, order', rows[byKey[key].file := row])
  {
    forall k | k in keys + [key] && Shown(byKey[k], evidence, window) ensures byKey[k].file in rows[byKey[key].file := row] {
      assert k in keys || k == key;
    }
  }

  datatype FileEvidence = FileEvidence(file: string, repeatedLines: nat, startLine: nat, endLine: nat)

  /** The rows in the order in which their files were first met, each with the place of its sample. */
  function Listing(order: seq<string>, rows: map<string, Row>, byKey: map<string, Entry>, window: nat): (s: seq<FileEvidence>)
    requires forall file :: file in order ==> file in rows && rows[file].sampleKey in byKey
    ensures |s| == |order|
  {
    if order == [] then []
    else
      var row := rows[order[0]];
      var start := byKey[row.sampleKey].start;
      [FileEvidence(order[0], row.lines, start + 1, start + window)] + Listing(order[1..], rows, byKey, window)
  }

  method CodeSimilarityEvidence(r: Reader, files: seq<string>, evidence: map<string, LineEvidence>, window: nat, threshold: real)
    returns (listing: seq<FileEvidence>)
    ensures IsEvidence(listing, r, files, evidence, window, threshold)
  {
    var keys, index, _ := FindRepeated(r, files, window, threshold);
    var seen: seq<string>, byFile: map<string, Row> := [], map[];
    for i := 0 to |keys|
      invariant Known(keys[..i], index) && AreRows(keys[..i], index, evidence, window, seen, byFile)
    {
      assert keys[..i + 1] == keys[..i] + [keys[i]] && keys[i] in keys;
      seen, byFile := AddToRow(keys[..i], keys[i], index, evidence, window, seen, byFile);
    }
    assert keys[..|keys|] == keys;
    listing := Listing(seen, byFile, index, window);
    assert IsListing(listing, keys, index, evidence, window, seen, byFile);
  }

  /** The listing shows the rows of those keys. */
  ghost predicate IsListing(listing: seq<FileEvidence>, keys: seq<string>, byKey: map<string, Entry>, evidence: map<string, LineEvidence>,
                            window: nat, order: seq<string>, rows: map<string, Row>)
    requires Known(keys, byKey)
  {
    && AreRows(keys, byKey, evidence, window, order, rows)
    && (forall file :: file in order ==> file in rows && rows[file].sampleKey in byKey)
    && listing == Listing(order, rows, byKey, window)
  }

  /** The listing shows the rows of the repeated blocks. */
  ghost predicate IsEvidence(listing: seq<FileEvidence>, r: Reader, files: seq<string>, evidence: map<string, LineEvidence>, window: nat,
                             threshold: real) {
    exists keys, byKey, order, rows ::
      AreRepeated(r, files, window, threshold, keys, byKey) && IsListing(listing, keys, byKey, evidence, window, order, rows)
  }

  function TotalShown(listing: seq<FileEvidence>): nat {
    if listing == [] then 0 else listing[0].repeatedLines + TotalShown(listing[1..])
  }

  function ShownOver(order: seq<string>, keys: seq<string>, byKey: map<string, Entry>, evidence: map<string, LineEvidence>, window: nat): nat
    requires Known(keys, byKey)
  {
    if order == [] then 0 else ShownLines(keys, byKey, evidence, window, order[0]) + ShownOver(order[1..], keys, byKey, evidence, window)
  }

  lemma {:induction false} TotalIsShownOver(order: seq<string>, rows: map<string, Row>, keys: seq<string>, byKey: map<string, Entry>,
                                            evidence: map<string, LineEvidence>, window: nat)
    requires Known(keys, byKey)
    requires forall file :: file in order ==>
               file in rows && rows[file].sampleKey in byKey && IsRow(keys, byKey, evidence, window, file, rows[file])
    ensures TotalShown(Listing(order, rows, byKey, window)) == ShownOver(order, keys, byKey, evidence, window)
  {
    if order != [] {
      assert order[0] in order;
      TotalIsShownOver(order[1..], rows, keys, byKey, evidence, window);
    }
  }

  lemma {:induction false} OneMoreOver(order: seq<string>, keys: seq<string>, key: string, byKey: map<string, Entry>,
                                       evidence: map<string, LineEvidence>, window: nat)
    requires Distinct(order) && Known(keys + [key], byKey) && Known(keys, byKey) && key in byKey
    ensures ShownOver(order, keys + [key], byKey, evidence, window) == ShownOver(order, keys, byKey, evidence, window)
            + if byKey[key].file in order && Shown(byKey[key], evidence, window) then byKey[key].solidLines else 0
  {
    if order != [] {
      OneMoreShown(keys, key, byKey, evidence, window, order[0]);
      OneMoreOver(order[1..], keys, key, byKey, evidence, window);
      assert order == [order[0]] + order[1..];
    }
  }

  lemma {:induction false} ShownOverNothing(order: seq<string>, byKey: map<string, Entry>, evidence: map<string, LineEvidence>, window: nat)
    ensures ShownOver(order, [], byKey, evidence, window) == 0
  {
    if order != [] {
      ShownOverNothing(order[1..], byKey, evidence, window);
    }
  }

  /** Over the files that have shown blocks, nothing but the assertion lines is missing. */
  lemma {:induction false} ShownIsAllButAssertions(order: seq<string>, keys: seq<string>, byKey: map<string, Entry>,
                                                   evidence: map<string, LineEvidence>, window: nat)
    requires Distinct(order) && Known(keys, byKey)
    requires forall key :: key in keys && Shown(byKey[key], evidence, window) ==> byKey[key].file in order
    ensures ShownOver(order, keys, byKey, evidence, window) + LinesWith(keys, byKey, evidence, window, Assertion) == AllLines(keys, byKey)
  {
    if keys == [] {
      ShownOverNothing(order, byKey, evidence, window);
    } else {
      var front, last := keys[..|keys| - 1], keys[|keys| - 1];
      assert keys == front + [last] && last in keys;
      ShownIsAllButAssertions(order, front, byKey, evidence, window);
      OneMoreOver(order, front, last, byKey, evidence, window);
    }
  }

  lemma {:induction false} LinesWithout(keys: seq<string>, i: nat, byKey: map<string, Entry>, evidence: map<string, LineEvidence>,
                                        window: nat, s: Semantics)
    requires Known(keys, byKey) && i < |keys|
    ensures Known(keys[..i] + keys[i + 1..], byKey)
    ensures LinesWith(keys, byKey, evidence, window, s)
            == (if Verdict(byKey[keys[i]], evidence, window) == s then byKey[keys[i]].solidLines else 0)
               + LinesWith(keys[..i] + keys[i + 1..], byKey, evidence, window, s)
  {
    var n := |keys| - 1;
    var rest := keys[..i] + keys[i + 1..];
    if i == n {
      assert rest == keys[..n];
    } else {
      var front := keys[..n];
      assert forall key :: key in front ==> key in keys;
      LinesWithout(front, i, byKey, evidence, window, s);
      assert rest[..n - 1] == front[..i] + front[i + 1..] && rest[n - 1] == keys[n];
    }
  }

  lemma {:induction false} WithoutCommon(a: seq<string>, b: seq<string>, i: nat)
    requires Distinct(a) && Distinct(b) && a != [] && i < |b| && b[i] == a[|a| - 1]
    requires forall key :: key in a <==> key in b
    ensures var front, rest := a[..|a| - 1], b[..i] + b[i + 1..];
      Distinct(rest) && forall key :: key in front <==> key in rest
  {
    var front, rest := a[..|a| - 1], b[..i] + b[i + 1..];
    assert a == front + [b[i]] && b == b[..i] + [b[i]] + b[i + 1..];
    forall j | 0 <= j < |rest| ensures rest[j] == b[if j < i then j else j + 1] {
    }
    assert b[i] !in front && b[i] !in rest;
    assert forall key :: key in a <==> key in front || key == b[i];
    assert forall key :: key in b <==> key in rest || key == b[i];
  }

  /** The sums do not depend on the order in which the blocks were found. */
  lemma {:induction false} LinesWithSame(a: seq<string>, b: seq<string>, byKey: map<string, Entry>, other: map<string, Entry>,
                                         evidence: map<string, LineEvidence>, window: nat, s: Semantics)
    requires Distinct(a) && Distinct(b) && Known(a, byKey) && Known(b, other)
    requires forall key :: key in a <==> key in b
    requires forall key :: key in a ==> key in other && byKey[key] == other[key]
    ensures LinesWith(a, byKey, evidence, window, s) == LinesWith(b, other, evidence, window, s)
  {
    assert forall j :: 0 <= j < |b| ==> b[j] in b;
    if a != [] {
      var n := |a| - 1;
      var front := a[..n];
      assert a[n] in b;
      var i: nat :| i < |b| && b[i] == a[n];
      var rest := b[..i] + b[i + 1..];
      LinesWithout(b, i, other, evidence, window, s);
      WithoutCommon(a, b, i);
      LinesWithSame(front, rest, byKey, other, evidence, window, s);
    }
  }

  lemma {:induction false} IndexIsDetermined(order: seq<Entry>, byKey: map<string, Entry>, other: map<string, Entry>, key: string)
    requires BlocksDistinct(order) && IsIndex(order, byKey) && IsIndex(order, other) && key in byKey
    ensures key in other && other[key] == byKey[key]
  {
    var e, f := byKey[key], other[key];
    KeyIsUnique(e.file, e.start, f.file, f.start);
    var i, j :| 0 <= i < |order| && 0 <= j < |order| && order[i] == e && order[j] == f;
    assert i == j;
  }

  /** Any two enumerations of the repeated blocks give the same sums. */
  lemma {:induction false} ScoreIsDetermined(r: Reader, files: seq<string>, evidence: map<string, LineEvidence>, window: nat, threshold: real,
                                             a: seq<string>, byKey: map<string, Entry>, b: seq<string>, other: map<string, Entry>, s: Semantics)
    requires AreRepeated(r, files, window, threshold, a, byKey) && AreRepeated(r, files, window, threshold, b, other)
    ensures LinesWith(a, byKey, evidence, window, s) == LinesWith(b, other, evidence, window, s)
  {
    AllBlocksDistinct(r, files, window);
    forall key | key in a ensures key in other && byKey[key] == other[key] {
      IndexIsDetermined(AllBlocks(r, files, window), byKey, other, key);
    }
    LinesWithSame(a, b, byKey, other, evidence, window, s);
  }

  /** `more` recognises every assertion line and every test case that `e` does. */
  predicate Recognises(more: LineEvidence, e: LineEvidence) {
    && e.assertionLines <= more.assertionLines
    && (e.caseBodyLines.Some? ==> more.caseBodyLines.Some? && e.caseBodyLines.value <= more.caseBodyLines.value)
  }

  predicate AllRecognised(more: map<string, LineEvidence>, evidence: map<string, LineEvidence>) {
    forall file :: file in evidence ==> file in more && Recognises(more[file], evidence[file])
  }

  /** A block that is charged under more evidence is charged under less. */
  lemma {:induction false} StillCharged(e: Entry, evidence: map<string, LineEvidence>, more: map<string, LineEvidence>, window: nat)
    requires AllRecognised(more, evidence)
    requires Verdict(e, more, window) in {Assembly, Unclassified}
    ensures Verdict(e, evidence, window) in {Assembly, Unclassified}
  {
    if e.file in evidence {
      var first, last := e.start + 1, if window > 0 then e.start + window else e.start + 1;
      MeetsMore(first, last, evidence[e.file].assertionLines, more[e.file].assertionLines);
      if evidence[e.file].caseBodyLines.Some? {
        MeetsMore(first, last, evidence[e.file].caseBodyLines.value, more[e.file].caseBodyLines.value);
      }
    }
  }

  lemma {:induction false} MeetsMore(startLine: nat, endLine: nat, lines: set<nat>, more: set<nat>)
    requires lines <= more
    ensures Meets(startLine, endLine, lines) ==> Meets(startLine, endLine, more)
  {
    if Meets(startLine, endLine, lines) {
      var line: nat :| startLine <= line <= endLine && line in lines;
      assert line in more;
    }
  }

  lemma {:induction false} ChargedLinesShrink(keys: seq<string>, byKey: map<string, Entry>, evidence: map<string, LineEvidence>,
                                              more: map<string, LineEvidence>, window: nat)
    requires Known(keys, byKey) && AllRecognised(more, evidence)
    ensures LinesWith(keys, byKey, more, window, Assembly) + LinesWith(keys, byKey, more, window, Unclassified)
            <= LinesWith(keys, byKey, evidence, window, Assembly) + LinesWith(keys, byKey, evidence, window, Unclassified)
  {
    if keys != [] {
      var front, last := keys[..|keys| - 1], keys[|keys| - 1];
      assert forall key :: key in front ==> key in keys;
      ChargedLinesShrink(front, byKey, evidence, more, window);
      if Verdict(byKey[last], more, window) in {Assembly, Unclassified} {
        StillCharged(byKey[last], evidence, more, window);
      }
    }
  }

  /** What the classification means for the score: recognising more assertions or more test cases,
      in however many files, never adds a charged line, and which lines hold calls never matters for
      the sum of the two charged buckets. */
  lemma {:induction false} MoreEvidenceChargesLess(b: Buckets, b': Buckets, r: Reader, files: seq<string>, evidence: map<string, LineEvidence>,
                                                   more: map<string, LineEvidence>, window: nat, threshold: real)
    requires IsScore(b, r, files, evidence, window, threshold) && IsScore(b', r, files, more, window, threshold)
    requires AllRecognised(more, evidence)
    ensures Charged(b') <= Charged(b) && b'.denominator == b.denominator
    ensures AllRecognised(evidence, more) ==> Charged(b') == Charged(b)
  {
    var keys, byKey :|
      AreRepeated(r, files, window, threshold, keys, byKey) && AreBuckets(b, r, files, evidence, window, keys, byKey);
    var keys', byKey' :|
      AreRepeated(r, files, window, threshold, keys', byKey') && AreBuckets(b', r, files, more, window, keys', byKey');
    ScoreIsDetermined(r, files, more, window, threshold, keys', byKey', keys, byKey, Assembly);
    ScoreIsDetermined(r, files, more, window, threshold, keys', byKey', keys, byKey, Unclassified);
    ChargedLinesShrink(keys, byKey, evidence, more, window);
    if AllRecognised(evidence, more) {
      ChargedLinesShrink(keys, byKey, more, evidence, window);
    }
  }

  /** The evidence and the score of the same files, computed by two calls: the rows add up to the
      charged lines plus the case-body lines, so to the score exactly when no repeated block lies in
      a test case. */
  lemma {:induction false} EvidenceExplainsScore(listing: seq<FileEvidence>, b: Buckets, r: Reader, files: seq<string>,
                                                 evidence: map<string, LineEvidence>, window: nat, threshold: real)
    requires IsScore(b, r, files, evidence, window, threshold) && IsEvidence(listing, r, files, evidence, window, threshold)
    ensures TotalShown(listing) == Charged(b) + b.caseBody
    ensures TotalShown(listing) == Charged(b) <==> b.caseBody == 0
  {
    var keys, byKey :|
      AreRepeated(r, files, window, threshold, keys, byKey) && AreBuckets(b, r, files, evidence, window, keys, byKey);
    var shown, index, order, rows :|
      AreRepeated(r, files, window, threshold, shown, index) && IsListing(listing, shown, index, evidence, window, order, rows);
    ScoreIsDetermined(r, files, evidence, window, threshold, keys, byKey, shown, index, Assembly);
    ScoreIsDetermined(r, files, evidence, window, threshold, keys, byKey, shown, index, Unclassified);
    ScoreIsDetermined(r, files, evidence, window, threshold, keys, byKey, shown, index, CaseBody);
    RowsTotal(evidence, window, order, rows, shown, index);
  }

  /** The rows show every line but those of assertion blocks. */
  lemma {:induction false} RowsTotal(evidence: map<string, LineEvidence>, window: nat, order: seq<string>, rows: map<string, Row>,
                                     keys: seq<string>, byKey: map<string, Entry>)
    requires Known(keys, byKey) && AreRows(keys, byKey, evidence, window, order, rows)
    ensures TotalShown(Listing(order, rows, byKey, window))
            == LinesWith(keys, byKey, evidence, window, Assembly) + LinesWith(keys, byKey, evidence, window, Unclassified)
               + LinesWith(keys, byKey, evidence, window, CaseBody)
  {
    TotalIsShownOver(order, rows, keys, byKey, evidence, window);
    ShownIsAllButAssertions(order, keys, byKey, evidence, window);
    BucketsCoverAll(keys, byKey, evidence, window);
  }
}
