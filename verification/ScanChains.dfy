/** Incremental scans of one tree after another: what a baseline that already misses resolutions says
    about the current tree, with stops and edits in between. */
module ScanChains {
  import opened Seqs
  import opened ScanIncremental
  import opened Scan
  import opened ScanRuns

  /** The shards a chain of complete runs leaves, one a tree. */
  ghost predicate ChainRuns(tc: Toolchain, trees: seq<Source>, states: seq<Shards>) {
    && |trees| == |states| > 0
    && states[0] == FullScan(tc, trees[0])
    && forall i, j :: 0 <= i < |trees| && j == i + 1 < |trees| ==> RunsTo(tc, states[i], trees[j], states[j])
  }

  ghost predicate RunsTo(tc: Toolchain, s: Shards, cur: Source, s': Shards) {
    CanParse(tc, s, cur) && s' == RunResult(tc, s, cur)
  }

  /** The last tree in which `p` was parsed. */
  ghost function ParsedAt(tc: Toolchain, trees: seq<Source>, states: seq<Shards>, p: Path): (k: nat)
    requires |trees| == |states| > 0
    ensures k < |trees|
  {
    var n := |trees| - 1;
    if n == 0 || p in ToParse(tc, states[n - 1], trees[n]) then n
    else ParsedAt(tc, trees[..n], states[..n], p)
  }

  /** The entry of `p` is what a scan of `src` recorded for the text `p` has in `cur`, and none of its
      imports is missing. */
  ghost predicate RecordedFrom(tc: Toolchain, src: Source, cur: Source, p: Path, f: Facts) {
    && p in src && p in cur && src[p] == cur[p]
    && f == FullFacts(tc, src, p)
    && forall d :: d in f.imports ==> d in cur
  }

  /** Every shard was recorded in some tree with the text its file has now. */
  ghost predicate Traceable(tc: Toolchain, cur: Source, s: Shards) {
    && s.Keys == cur.Keys
    && forall p :: p in s ==> exists src :: RecordedFrom(tc, src, cur, p, s[p])
  }

  /** A file the run does not parse keeps its text and loses no import. */
  lemma {:induction false} ReusedIsRecorded(tc: Toolchain, src: Source, prev: Source, cur: Source, s: Shards, p: Path)
    requires CollisionFree(tc)
    requires s.Keys == prev.Keys && (forall q :: q in s ==> s[q].contentHash.Some?)
    requires p in s && RecordedFrom(tc, src, prev, p, s[p])
    requires p in cur && p !in ToParse(tc, s, cur)
    ensures RecordedFrom(tc, src, cur, p, s[p])
  {
    assert s[p].contentHash == Some(tc.hash(cur[p]));
    forall d | d in s[p].imports ensures d in cur {
      assert d in s;
      assert d !in Deleted(s, cur);
    }
  }

  lemma {:induction false} ParsedIsRecorded(tc: Toolchain, cur: Source, p: Path)
    requires p in cur
    ensures RecordedFrom(tc, cur, cur, p, FullFacts(tc, cur, p))
  {
    forall d | d in FullFacts(tc, cur, p).imports ensures d in cur {
      ResolveMembers(tc.parse(p, cur[p]).imports, cur, d);
    }
  }

  lemma {:induction false} ResultKeys(tc: Toolchain, prev: Source, cur: Source, s: Shards)
    requires s.Keys == prev.Keys && (forall q :: q in s ==> s[q].contentHash.Some?)
    requires CanParse(tc, s, cur)
    ensures RunResult(tc, s, cur).Keys == cur.Keys
  {
    GhostEntriesIff(tc, s, cur);
  }

  /** After any chain of complete runs every entry is the one of the tree its file was last parsed in,
      its text has not changed since, and none of its imports is missing. */
  lemma {:induction false} ChainFacts(tc: Toolchain, trees: seq<Source>, states: seq<Shards>)
    requires CollisionFree(tc) && ChainRuns(tc, trees, states)
    ensures var n := |trees| - 1;
      && states[n].Keys == trees[n].Keys
      && forall p :: p in trees[n] ==> RecordedFrom(tc, trees[ParsedAt(tc, trees, states, p)], trees[n], p, states[n][p])
  {
    var n := |trees| - 1;
    if n == 0 {
      forall p | p in trees[0] ensures RecordedFrom(tc, trees[0], trees[0], p, states[0][p]) {
        ParsedIsRecorded(tc, trees[0], p);
      }
    } else {
      var before, s, cur := trees[..n], states[n - 1], trees[n];
      ChainFacts(tc, before, states[..n]);
      assert RunsTo(tc, s, cur, states[n]);
      forall q | q in s ensures s[q].contentHash.Some? {
        assert RecordedFrom(tc, before[ParsedAt(tc, before, states[..n], q)], before[n - 1], q, s[q]);
      }
      ResultKeys(tc, trees[n - 1], cur, s);
      forall p | p in cur ensures RecordedFrom(tc, trees[ParsedAt(tc, trees, states, p)], cur, p, states[n][p]) {
        if p in ToParse(tc, s, cur) {
          ParsedIsRecorded(tc, cur, p);
        } else {
          assert p in s;
          ReusedIsRecorded(tc, before[ParsedAt(tc, before, states[..n], p)], trees[n - 1], cur, s, p);
        }
      }
    }
  }

  /** A chain of complete runs ends like a full scan exactly when no file has an import that resolves
      now and did not in the tree the file was last parsed in. */
  lemma {:induction false} ChainRefinesFull(tc: Toolchain, trees: seq<Source>, states: seq<Shards>)
    requires CollisionFree(tc) && ChainRuns(tc, trees, states)
    ensures var cur := trees[|trees| - 1];
      states[|trees| - 1] == FullScan(tc, cur)
      <==> forall p :: p in cur ==> !LateResolution(tc, trees[ParsedAt(tc, trees, states, p)], cur, p)
  {
    var n := |trees| - 1;
    var cur, s := trees[n], states[n];
    ChainFacts(tc, trees, states);
    forall p | p in cur
      ensures s[p] == FullScan(tc, cur)[p] <==> !LateResolution(tc, trees[ParsedAt(tc, trees, states, p)], cur, p)
    {
      RecordedAgrees(tc, trees[ParsedAt(tc, trees, states, p)], cur, p, s[p]);
    }
    if forall p :: p in cur ==> !LateResolution(tc, trees[ParsedAt(tc, trees, states, p)], cur, p) {
      assert s.Keys == FullScan(tc, cur).Keys;
    }
  }

  lemma {:induction false} RecordedAgrees(tc: Toolchain, src: Source, cur: Source, p: Path, f: Facts)
    requires RecordedFrom(tc, src, cur, p, f)
    ensures f == FullFacts(tc, cur, p) <==> !LateResolution(tc, src, cur, p)
  {
    forall r | r in tc.parse(p, src[p]).imports && r.target in src ensures r.target in cur {
      ResolveMembers(tc.parse(p, src[p]).imports, src, r.target);
      assert r.target in f.imports;
    }
    UnchangedFacts(tc, src, cur, p);
  }

  // ---------------------------------------------------------------------------------------------
  // Stops and edits in between
  // ---------------------------------------------------------------------------------------------

  lemma {:induction false} TraceableIsHashed(tc: Toolchain, cur: Source, s: Shards)
    requires Traceable(tc, cur, s)
    ensures forall q :: q in s ==> s[q].contentHash.Some?
  {
    forall q | q in s ensures s[q].contentHash.Some? {
      var src :| RecordedFrom(tc, src, cur, q, s[q]);
    }
  }

  /** A complete run keeps the baseline traceable. */
  lemma {:induction false} RunKeepsTraceable(tc: Toolchain, prev: Source, cur: Source, s: Shards)
    requires CollisionFree(tc) && Traceable(tc, prev, s) && CanParse(tc, s, cur)
    ensures Traceable(tc, cur, RunResult(tc, s, cur))
  {
    TraceableIsHashed(tc, prev, s);
    ResultKeys(tc, prev, cur, s);
    var r := RunResult(tc, s, cur);
    forall p | p in r ensures exists src :: RecordedFrom(tc, src, cur, p, r[p]) {
      if p in ToParse(tc, s, cur) {
        ParsedIsRecorded(tc, cur, p);
        assert RecordedFrom(tc, cur, cur, p, r[p]);
      } else {
        var src :| RecordedFrom(tc, src, prev, p, s[p]);
        ReusedIsRecorded(tc, src, prev, cur, s, p);
        assert RecordedFrom(tc, src, cur, p, r[p]);
      }
    }
  }

  lemma {:induction false} FullIsTraceable(tc: Toolchain, cur: Source)
    ensures Traceable(tc, cur, FullScan(tc, cur))
  {
    var s := FullScan(tc, cur);
    forall p | p in s ensures exists src :: RecordedFrom(tc, src, cur, p, s[p]) {
      ParsedIsRecorded(tc, cur, p);
      assert RecordedFrom(tc, cur, cur, p, s[p]);
    }
  }

  /** The index names the shards on file, and these are traceable in `cur`. */
  ghost predicate Accepted(tc: Toolchain, cur: Source, b: Baseline) {
    Traceable(tc, cur, FactsOf(b.shards)) && b.index == Some(b.shards)
  }

  ghost predicate AcceptedSomewhere(tc: Toolchain, b: Baseline) {
    exists t :: Accepted(tc, t, b)
  }

  /** With the identity check, a scan of `cur` over an accepted baseline leaves it as it was, has it
      refused from then on, or is complete. */
  lemma {:induction false} AcceptedScan(tc: Toolchain, prev: Source, cur: Source, g: Guards, x: Scanned)
    requires CollisionFree(tc) && Refuses(g) && Accepted(tc, prev, x.before) && IncrementalScan(tc, cur, g, x)
    ensures x.after == x.before || Drifted(g.checksIdentity, x.after) || Accepted(tc, cur, x.after)
    ensures Ended(x) ==> Accepted(tc, cur, x.after)
  {
    match x.outcome {
      case Full =>
        AcceptedFull(tc, cur, g, x);
      case ShortCircuit =>
        AcceptedUnchanged(tc, prev, cur, g, x);
      case Incremental =>
        AcceptedPublication(tc, prev, cur, g, x);
      case _ =>
        StoppedUnchanged(tc, cur, g, x);
    }
  }

  lemma {:induction false} StoppedUnchanged(tc: Toolchain, cur: Source, g: Guards, x: Scanned)
    requires IncrementalScan(tc, cur, g, x) && (x.outcome.Failed? || x.outcome.Empty?)
    ensures x.after == x.before
  {
  }

  lemma {:induction false} AcceptedFull(tc: Toolchain, cur: Source, g: Guards, x: Scanned)
    requires IncrementalScan(tc, cur, g, x) && x.outcome.Full?
    ensures x.after == x.before || Accepted(tc, cur, x.after)
    ensures x.survived ==> Accepted(tc, cur, x.after)
  {
    FullIsTraceable(tc, cur);
  }

  lemma {:induction false} AcceptedUnchanged(tc: Toolchain, prev: Source, cur: Source, g: Guards, x: Scanned)
    requires CollisionFree(tc) && Refuses(g) && Accepted(tc, prev, x.before) && IncrementalScan(tc, cur, g, x) && x.outcome.ShortCircuit?
    ensures Accepted(tc, cur, x.after)
  {
    NothingChanged(tc, x.before.shards, cur);
    RunKeepsTraceable(tc, prev, cur, FactsOf(x.before.shards));
  }

  lemma {:induction false} AcceptedPublication(tc: Toolchain, prev: Source, cur: Source, g: Guards, x: Scanned)
    requires CollisionFree(tc) && Refuses(g) && Accepted(tc, prev, x.before) && IncrementalScan(tc, cur, g, x) && x.outcome.Incremental?
    ensures x.after == x.before || Drifted(g.checksIdentity, x.after) || Accepted(tc, cur, x.after)
    ensures x.survived ==> Accepted(tc, cur, x.after)
  {
    var s := FactsOf(x.before.shards);
    var writes, changed: nat, deletes :| PublishesPlan(tc, cur, writes, changed, deletes, x.steps, x.before, x.after)
                                         && (x.survived ==> x.steps > |writes| + |deletes|);
    if x.steps > |writes| + |deletes| {
      PlanCompletes(tc, s, cur, writes, changed, deletes, x.steps);
      RunKeepsTraceable(tc, prev, cur, s);
    } else {
      var p :| p in x.before.shards;
      assert p in s;
      CurrentPathsStay(tc, s, cur, writes, changed, deletes, x.steps);
      assert x.after.shards != map[];
    }
  }

  /** With the identity check: whatever trees are scanned incrementally, and wherever the scans stop,
      a scan that ends leaves a traceable baseline of its tree. */
  lemma {:induction false} CheckedScansStayTraceable(tc: Toolchain, first: Source, g: Guards, trees: seq<Source>, h: seq<Scanned>)
    requires CollisionFree(tc) && Refuses(g) && ScansOfTrees(tc, trees, g, h) && h != []
    requires Accepted(tc, first, h[0].before)
    ensures Ended(h[|h| - 1]) ==> Traceable(tc, trees[|h| - 1], FactsOf(h[|h| - 1].after.shards))
    ensures Drifted(g.checksIdentity, h[|h| - 1].after) || AcceptedSomewhere(tc, h[|h| - 1].after)
  {
    var n := |h| - 1;
    var last := h[n];
    assert IncrementalScan(tc, trees[n], g, last);
    if n == 0 {
      AcceptedScan(tc, first, trees[0], g, last);
    } else {
      CheckedScansStayTraceable(tc, first, g, trees[..n], h[..n]);
      assert last.before == h[n - 1].after;
      if !Drifted(g.checksIdentity, last.before) {
        var t :| Accepted(tc, t, last.before);
        AcceptedScan(tc, t, trees[n], g, last);
      }
    }
  }

  /** Over any hashed shards, a complete run leaves an import of a missing file exactly when a reused
      entry imports a path that has neither a shard nor a file. */
  lemma {:induction false} DanglingIff(tc: Toolchain, s: Shards, cur: Source, p: Path, d: Path)
    requires CanParse(tc, s, cur) && (forall q :: q in s ==> s[q].contentHash.Some?)
    requires d !in cur
    ensures p in RunResult(tc, s, cur) && d in RunResult(tc, s, cur)[p].imports
            <==> p in s && p in cur && p !in ToParse(tc, s, cur) && d in s[p].imports && d !in s
  {
    GhostEntriesIff(tc, s, cur);
    var r := RunResult(tc, s, cur);
    if p in ToParse(tc, s, cur) && p in r {
      ResolveMembers(tc.parse(p, cur[p]).imports, cur, d);
    } else if p in s && d in s[p].imports {
      assert d in s ==> d in Deleted(s, cur);
    }
  }

  /** A stop followed by an edit.  A run over `mid` stops after `k` writes, when `p` is written but the
      new file `d` it imports is not; then `d` is removed again, and the other imports of `p` are as on
      file.  Without the identity check the next complete run keeps the import of `d`. */
  lemma {:induction false} StopThenDeleteDangles(tc: Toolchain, prev: Source, mid: Source, writes: seq<Facts>, changed: nat,
                                                 deletes: seq<Path>, k: nat, p: Path, d: Path)
    requires CollisionFree(tc) && IsPlan(tc, FullScan(tc, prev), mid, writes, changed, deletes) && k <= |writes|
    requires p in PathsOf(writes[..k]) && d !in PathsOf(writes[..k]) && p != d
    requires p in mid && d in FullFacts(tc, mid, p).imports && d !in prev
    requires var s := AfterSteps(FullScan(tc, prev), writes, deletes, k);
      && CanParse(tc, s, mid - {d})
      && forall e :: e in FullFacts(tc, mid, p).imports && e != d ==>
           e in s && e in mid && s[e].contentHash == Some(tc.hash(mid[e]))
    ensures var s := AfterSteps(FullScan(tc, prev), writes, deletes, k);
      var r := RunResult(tc, s, mid - {d});
      p in r && d in r[p].imports && r != FullScan(tc, mid - {d})
  {
    var s, cur := AfterSteps(FullScan(tc, prev), writes, deletes, k), mid - {d};
    WriteAllIs(tc, FullScan(tc, prev), mid, writes[..k]);
    assert s[p] == FullFacts(tc, mid, p) && d !in s;
    assert p !in Changed(tc, s, cur);
    assert p !in Consumers(s, Changed(tc, s, cur) + Deleted(s, cur)) by {
      forall e | e in s[p].imports ensures e !in Changed(tc, s, cur) && e !in Deleted(s, cur) {
      }
    }
    DanglingIff(tc, s, cur, p, d);
    ResolveMembers(tc.parse(p, cur[p]).imports, cur, d);
  }

  /** Entries that a scan has recorded have their largest function, as all parsers report it, so over a traceable baseline
      the P95 population of a prepared run is the one of a full scan of the same files. */
  lemma {:induction false} TraceableBranchesAgree(tc: Toolchain, prev: Source, cur: Source, s: map<Path, Entry>, r: Prepared)
    requires CollisionFree(tc) && MeasuresFunctions(tc) && Traceable(tc, prev, FactsOf(s))
    requires r.Ready? && CanParse(tc, FactsOf(s), cur) && IsReady(tc, s, cur, r)
    ensures AllStandFor(tc, cur, FactsIn(r.reused))
    ensures multiset(BranchInputs(FactsIn(r.reused), true) + BranchInputs(FactsList(tc, cur, r.asts), false))
            == multiset(BranchInputs(Afresh(tc, cur, FactsIn(r.reused)) + FactsList(tc, cur, r.asts), false))
  {
    var reused := FactsIn(r.reused);
    forall i | 0 <= i < |reused| ensures StandsFor(tc, cur, reused[i]) && BranchKnown(tc, cur, reused[i]) {
      var f := reused[i];
      assert r.reused[i].facts == f && r.reused[i] in r.reused;
      assert f.path in EntryPaths(r.reused);
      assert FactsOf(s)[f.path] == f;
      ReusedStandsFor(tc, prev, cur, FactsOf(s), f.path);
    }
    BranchPopulationAgrees(tc, cur, reused, FactsList(tc, cur, r.asts));
  }

  lemma {:induction false} ReusedStandsFor(tc: Toolchain, prev: Source, cur: Source, s: Shards, p: Path)
    requires CollisionFree(tc) && MeasuresFunctions(tc) && Traceable(tc, prev, s)
    requires p in s && s[p].path == p && p !in Deleted(s, cur) && p !in ToParse(tc, s, cur)
    ensures StandsFor(tc, cur, s[p]) && BranchKnown(tc, cur, s[p])
  {
    TraceableIsHashed(tc, prev, s);
    var src :| RecordedFrom(tc, src, prev, p, s[p]);
    ReusedIsRecorded(tc, src, prev, cur, s, p);
  }
}
