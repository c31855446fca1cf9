/** What the score charges and what the evidence shows, said in terms of the lines a block covers. */
module ChargedLines {
  import opened BlockIndex
  import opened Seqs
  import opened SimilarityAccounting

  type Evidence = map<string, LineEvidence>

  /** Some line of the block, counted from one, is in the set; a block covers at least its first line. */
  ghost predicate Covers(e: Entry, window: nat, lines: set<nat>) {
    exists line :: line in lines && e.start < line && (line <= e.start + window || line == e.start + 1)
  }

  ghost predicate HoldsAssertion(e: Entry, evidence: Evidence, window: nat) {
    e.file in evidence && Covers(e, window, evidence[e.file].assertionLines)
  }

  /** Test cases are known for the file, and the block touches one without holding an assertion. */
  ghost predicate TouchesCase(e: Entry, evidence: Evidence, window: nat) {
    && e.file in evidence && !HoldsAssertion(e, evidence, window)
    && evidence[e.file].caseBodyLines.Some? && Covers(e, window, evidence[e.file].caseBodyLines.value)
  }

  /** No test case is known for the file, and the block holds a call but no assertion. */
  ghost predicate OnlyCalls(e: Entry, evidence: Evidence, window: nat) {
    && e.file in evidence && !HoldsAssertion(e, evidence, window)
    && evidence[e.file].caseBodyLines.None? && Covers(e, window, evidence[e.file].callLines)
  }

  lemma {:induction false} CoversIs(e: Entry, window: nat, lines: set<nat>)
    ensures Meets(e.start + 1, if window > 0 then e.start + window else e.start + 1, lines) <==> Covers(e, window, lines)
  {
    if Covers(e, window, lines) {
      var line :| line in lines && e.start < line && (line <= e.start + window || line == e.start + 1);
      assert e.start + 1 <= line <= if window > 0 then e.start + window else e.start + 1;
    }
  }

  /** Assertions are asked for first, then test cases if any are known, and calls only if none is. */
  lemma {:induction false} VerdictIs(e: Entry, evidence: Evidence, window: nat)
    ensures Verdict(e, evidence, window).Assertion? <==> HoldsAssertion(e, evidence, window)
    ensures Verdict(e, evidence, window).CaseBody? <==> TouchesCase(e, evidence, window)
    ensures Verdict(e, evidence, window).Unclassified? <==> OnlyCalls(e, evidence, window)
  {
    if e.file in evidence {
      CoversIs(e, window, evidence[e.file].assertionLines);
      CoversIs(e, window, evidence[e.file].callLines);
      if evidence[e.file].caseBodyLines.Some? {
        CoversIs(e, window, evidence[e.file].caseBodyLines.value);
      }
    }
  }

  // ---------------------------------------------------------------------------------------------
  // The score
  // ---------------------------------------------------------------------------------------------

  /** The solid lines of the listed blocks that satisfy the condition. */
  ghost function SolidWhere(keys: seq<string>, byKey: map<string, Entry>, keep: Entry -> bool): nat
    requires Known(keys, byKey)
  {
    if keys == [] then 0
    else
      var front, last := keys[..|keys| - 1], byKey[keys[|keys| - 1]];
      assert forall key :: key in front ==> key in keys;
      SolidWhere(front, byKey, keep) + if keep(last) then last.solidLines else 0
  }

  lemma {:induction false} LinesWithIs(keys: seq<string>, byKey: map<string, Entry>, evidence: Evidence, window: nat, s: Semantics,
                                       keep: Entry -> bool)
    requires Known(keys, byKey)
    requires forall e :: keep(e) <==> Verdict(e, evidence, window) == s
    ensures LinesWith(keys, byKey, evidence, window, s) == SolidWhere(keys, byKey, keep)
  {
    if keys != [] {
      assert forall key :: key in keys[..|keys| - 1] ==> key in keys;
      LinesWithIs(keys[..|keys| - 1], byKey, evidence, window, s, keep);
    }
  }

  /** The four sums, each over the blocks its condition on the covered lines selects. */
  ghost predicate ChargesByLines(b: Buckets, keys: seq<string>, byKey: map<string, Entry>, evidence: Evidence, window: nat)
    requires Known(keys, byKey)
  {
    && b.assertion == SolidWhere(keys, byKey, e => HoldsAssertion(e, evidence, window))
    && b.caseBody == SolidWhere(keys, byKey, e => TouchesCase(e, evidence, window))
    && b.unclassified == SolidWhere(keys, byKey, e => OnlyCalls(e, evidence, window))
    && b.assembly == SolidWhere(keys, byKey, e =>
         !HoldsAssertion(e, evidence, window) && !TouchesCase(e, evidence, window) && !OnlyCalls(e, evidence, window))
  }

  /** The two counts of files: those with a repeated block and no evidence, and those with one and
      evidence that knows no test case. */
  ghost predicate CountsFiles(b: Buckets, keys: seq<string>, byKey: map<string, Entry>, evidence: Evidence)
    requires Known(keys, byKey)
  {
    exists blind: set<string>, caseless: set<string> ::
      && |blind| == b.filesWithoutBlockEvidence && |caseless| == b.filesWithoutCaseSpans
      && AreBlind(blind, keys, byKey, evidence) && AreCaseless(caseless, keys, byKey, evidence)
  }

  ghost predicate AreBlind(files: set<string>, keys: seq<string>, byKey: map<string, Entry>, evidence: Evidence)
    requires Known(keys, byKey)
  {
    forall f :: f in files <==> f !in evidence && exists key :: key in keys && byKey[key].file == f
  }

  ghost predicate AreCaseless(files: set<string>, keys: seq<string>, byKey: map<string, Entry>, evidence: Evidence)
    requires Known(keys, byKey)
  {
    forall f :: f in files <==> f in evidence && evidence[f].caseBodyLines.None? && exists key :: key in keys && byKey[key].file == f
  }

  /** What the score is: the sums over the repeated blocks, by the lines they cover, and the lines of all
      listed files as denominator. */
  lemma {:induction false} ScoreByLines(b: Buckets, r: Reader, files: seq<string>, evidence: Evidence, window: nat, threshold: real)
    returns (keys: seq<string>, byKey: map<string, Entry>)
    requires IsScore(b, r, files, evidence, window, threshold)
    ensures AreRepeated(r, files, window, threshold, keys, byKey)
    ensures ChargesByLines(b, keys, byKey, evidence, window) && CountsFiles(b, keys, byKey, evidence)
    ensures b.denominator == Sum(LineCounts(r, files))
  {
    keys, byKey :| AreRepeated(r, files, window, threshold, keys, byKey) && AreBuckets(b, r, files, evidence, window, keys, byKey);
    SumsByLines(b, keys, byKey, evidence, window);
    FilesByBlocks(keys, byKey, evidence);
    TotalLinesIs(r, files);
  }

  lemma {:induction false} SumsByLines(b: Buckets, keys: seq<string>, byKey: map<string, Entry>, evidence: Evidence, window: nat)
    requires Known(keys, byKey) && (b.assembly, b.unclassified, b.assertion, b.caseBody) == SumsOf(keys, byKey, evidence, window)
    ensures ChargesByLines(b, keys, byKey, evidence, window)
  {
    forall e {
      VerdictIs(e, evidence, window);
    }
    LinesWithIs(keys, byKey, evidence, window, Assertion, e => HoldsAssertion(e, evidence, window));
    LinesWithIs(keys, byKey, evidence, window, CaseBody, e => TouchesCase(e, evidence, window));
    LinesWithIs(keys, byKey, evidence, window, Unclassified, e => OnlyCalls(e, evidence, window));
    LinesWithIs(keys, byKey, evidence, window, Assembly, e =>
      !HoldsAssertion(e, evidence, window) && !TouchesCase(e, evidence, window) && !OnlyCalls(e, evidence, window));
  }

  lemma {:induction false} FilesByBlocks(keys: seq<string>, byKey: map<string, Entry>, evidence: Evidence)
    requires Known(keys, byKey)
    ensures AreBlind(FilesWithoutEvidence(keys, byKey, evidence), keys, byKey, evidence)
    ensures AreCaseless(FilesWithoutCases(keys, byKey, evidence), keys, byKey, evidence)
  {
  }

  // ---------------------------------------------------------------------------------------------
  // The evidence
  // ---------------------------------------------------------------------------------------------

  ghost predicate Explains(e: Entry, evidence: Evidence, window: nat, file: string) {
    e.file == file && !HoldsAssertion(e, evidence, window)
  }

  ghost predicate HasRow(listing: seq<FileEvidence>, file: string) {
    exists i :: 0 <= i < |listing| && listing[i].file == file
  }

  ghost predicate HasBlock(keys: seq<string>, byKey: map<string, Entry>, evidence: Evidence, window: nat, file: string) {
    exists key :: key in keys && key in byKey && Explains(byKey[key], evidence, window, file)
  }

  /** A row sums the repeated blocks of its file that hold no assertion, and shows a longest one. */
  ghost predicate RowExplains(row: FileEvidence, keys: seq<string>, byKey: map<string, Entry>, evidence: Evidence, window: nat)
    requires Known(keys, byKey)
  {
    && row.repeatedLines == SolidWhere(keys, byKey, e => Explains(e, evidence, window, row.file))
    && exists key :: key in keys && Explains(byKey[key], evidence, window, row.file)
                     && row.startLine == byKey[key].start + 1 && row.endLine == byKey[key].start + window
                     && IsLongest(byKey[key], keys, byKey, evidence, window, row.file)
  }

  ghost predicate IsLongest(e: Entry, keys: seq<string>, byKey: map<string, Entry>, evidence: Evidence, window: nat, file: string)
    requires Known(keys, byKey)
  {
    forall k :: k in keys && Explains(byKey[k], evidence, window, file) ==> byKey[k].solidLines <= e.solidLines
  }

  lemma {:induction false} ShownLinesIs(keys: seq<string>, byKey: map<string, Entry>, evidence: Evidence, window: nat, file: string)
    requires Known(keys, byKey)
    ensures ShownLines(keys, byKey, evidence, window, file) == SolidWhere(keys, byKey, e => Explains(e, evidence, window, file))
  {
    if keys != [] {
      assert forall key :: key in keys[..|keys| - 1] ==> key in keys;
      ShownLinesIs(keys[..|keys| - 1], byKey, evidence, window, file);
      VerdictIs(byKey[keys[|keys| - 1]], evidence, window);
    }
  }

  lemma {:induction false} ListingAt(order: seq<string>, rows: map<string, Row>, byKey: map<string, Entry>, window: nat, i: nat)
    requires forall file :: file in order ==> file in rows && rows[file].sampleKey in byKey
    requires i < |order|
    ensures order[i] in rows && rows[order[i]].sampleKey in byKey
    ensures var start := byKey[rows[order[i]].sampleKey].start;
      Listing(order, rows, byKey, window)[i] == FileEvidence(order[i], rows[order[i]].lines, start + 1, start + window)
  {
    if i > 0 {
      ListingAt(order[1..], rows, byKey, window, i - 1);
    }
  }

  /** What the evidence is: a file has a row exactly when it has a repeated block without an assertion,
      one row each, and the row sums those blocks. */
  lemma {:induction false} EvidenceByLines(listing: seq<FileEvidence>, r: Reader, files: seq<string>, evidence: Evidence, window: nat,
                                           threshold: real)
    returns (keys: seq<string>, byKey: map<string, Entry>)
    requires IsEvidence(listing, r, files, evidence, window, threshold)
    ensures AreRepeated(r, files, window, threshold, keys, byKey)
    ensures RowsExplain(listing, keys, byKey, evidence, window)
    ensures forall file :: HasRow(listing, file) <==> HasBlock(keys, byKey, evidence, window, file)
  {
    var order, rows;
    keys, byKey, order, rows :|
      AreRepeated(r, files, window, threshold, keys, byKey) && IsListing(listing, keys, byKey, evidence, window, order, rows);
    RowsByLines(listing, keys, byKey, evidence, window, order, rows);
    forall file ensures HasRow(listing, file) <==> HasBlock(keys, byKey, evidence, window, file) {
      RowIff(listing, keys, byKey, evidence, window, order, rows, file);
    }
  }

  /** One row a file, and every row explains its file. */
  ghost predicate RowsExplain(listing: seq<FileEvidence>, keys: seq<string>, byKey: map<string, Entry>, evidence: Evidence, window: nat)
    requires Known(keys, byKey)
  {
    && (forall i, j :: 0 <= i < j < |listing| ==> listing[i].file != listing[j].file)
    && forall i :: 0 <= i < |listing| ==> RowExplains(listing[i], keys, byKey, evidence, window)
  }

  lemma {:induction false} RowsByLines(listing: seq<FileEvidence>, keys: seq<string>, byKey: map<string, Entry>, evidence: Evidence,
                                       window: nat, order: seq<string>, rows: map<string, Row>)
    requires Known(keys, byKey) && IsListing(listing, keys, byKey, evidence, window, order, rows)
    ensures RowsExplain(listing, keys, byKey, evidence, window)
  {
    forall i | 0 <= i < |listing|
      ensures listing[i].file == order[i] && RowExplains(listing[i], keys, byKey, evidence, window)
    {
      ListingAt(order, rows, byKey, window, i);
      RowByLines(listing[i], keys, byKey, evidence, window, order[i], rows[order[i]]);
    }
  }

  lemma {:induction false} RowByLines(shown: FileEvidence, keys: seq<string>, byKey: map<string, Entry>, evidence: Evidence, window: nat,
                                      file: string, row: Row)
    requires Known(keys, byKey) && IsRow(keys, byKey, evidence, window, file, row)
    requires shown == FileEvidence(file, row.lines, byKey[row.sampleKey].start + 1, byKey[row.sampleKey].start + window)
    ensures RowExplains(shown, keys, byKey, evidence, window)
  {
    ShownLinesIs(keys, byKey, evidence, window, file);
    forall e {
      VerdictIs(e, evidence, window);
    }
    assert Explains(byKey[row.sampleKey], evidence, window, file);
    assert IsLongest(byKey[row.sampleKey], keys, byKey, evidence, window, file);
  }

  lemma {:induction false} RowIff(listing: seq<FileEvidence>, keys: seq<string>, byKey: map<string, Entry>, evidence: Evidence, window: nat,
                                  order: seq<string>, rows: map<string, Row>, file: string)
    requires Known(keys, byKey) && IsListing(listing, keys, byKey, evidence, window, order, rows)
    ensures HasRow(listing, file) <==> HasBlock(keys, byKey, evidence, window, file)
  {
    forall i | 0 <= i < |order| ensures listing[i].file == order[i] {
      ListingAt(order, rows, byKey, window, i);
    }
    if HasRow(listing, file) {
      assert file in rows;
      assert IsRow(keys, byKey, evidence, window, file, rows[file]);
      VerdictIs(byKey[rows[file].sampleKey], evidence, window);
    }
    if HasBlock(keys, byKey, evidence, window, file) {
      var key :| key in keys && Explains(byKey[key], evidence, window, file);
      VerdictIs(byKey[key], evidence, window);
      assert file in order;
      var i :| 0 <= i < |order| && order[i] == file;
      assert listing[i].file == file;
    }
  }
}
