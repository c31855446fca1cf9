/** Sequences of scans over one store: what a stop leaves for the next scan, when the store's identity
    check refuses it, and when incremental scans end like one that was never stopped. */
module ScanRuns {
  import opened Seqs
  import opened ScanIncremental
  import opened Scan

  const UNGUARDED := Guards(false, false)

  /** The store stops an incremental run at a state it does not accept. */
  predicate Refuses(g: Guards) {
    g.checksIdentity || g.recoveryPending
  }

  datatype Scanned = Scanned(before: Baseline, steps: nat, outcome: Outcome, after: Baseline, survived: bool)

  ghost predicate IncrementalScan(tc: Toolchain, cur: Source, g: Guards, x: Scanned) {
    ScanStep(tc, cur, g, true, x.steps, x.before, x.outcome, x.after, x.survived)
  }

  /** Incremental scans of one tree, one after the other, each stopped or not. */
  ghost predicate IncrementalScans(tc: Toolchain, cur: Source, g: Guards, h: seq<Scanned>) {
    && (forall i :: 0 <= i < |h| ==> IncrementalScan(tc, cur, g, h[i]))
    && (forall i, j :: 0 <= i < |h| && j == i + 1 < |h| ==> h[j].before == h[i].after)
  }

  /** What a full scan of `prev` leaves on file. */
  ghost predicate Mirrors(tc: Toolchain, prev: Source, b: Baseline) {
    FactsOf(b.shards) == FullScan(tc, prev) && b.index == Some(b.shards)
  }

  /** The scan was neither stopped nor refused, and there was something to scan. */
  predicate Ended(x: Scanned) {
    x.survived && !x.outcome.Failed? && !x.outcome.Empty?
  }

  // ---------------------------------------------------------------------------------------------
  // One stop
  // ---------------------------------------------------------------------------------------------

  /** Over a baseline that mirrors a tree every step of a plan shows: the first write is a changed
      file or an importer of a deleted one. */
  lemma {:induction false} EveryStepShows(tc: Toolchain, prev: Source, cur: Source, writes: seq<Facts>, changed: nat,
                                          deletes: seq<Path>, steps: nat)
    requires CollisionFree(tc)
    requires IsPlan(tc, FullScan(tc, prev), cur, writes, changed, deletes)
    ensures AfterSteps(FullScan(tc, prev), writes, deletes, steps) == FullScan(tc, prev)
            <==> steps == 0 || (writes == [] && deletes == [])
  {
    var s0 := FullScan(tc, prev);
    var after := AfterSteps(s0, writes, deletes, steps);
    if steps > 0 && writes != [] {
      var done := if steps <= |writes| then writes[..steps] else writes;
      FirstWriteShows(tc, prev, cur, writes, changed, deletes);
      WriteAllIs(tc, s0, cur, done);
      var w := writes[0];
      assert w in done && w.path in PathsOf(done);
      assert after[w.path] == FullFacts(tc, cur, w.path);
    } else if steps > 0 && deletes != [] {
      var gone := deletes[..if steps <= |deletes| then steps else |deletes|];
      assert deletes[0] in Elements(deletes) && deletes[0] in Elements(gone);
    }
  }

  lemma {:induction false} FirstWriteShows(tc: Toolchain, prev: Source, cur: Source, writes: seq<Facts>, changed: nat,
                                           deletes: seq<Path>)
    requires CollisionFree(tc)
    requires IsPlan(tc, FullScan(tc, prev), cur, writes, changed, deletes) && writes != []
    ensures var p := writes[0].path; p in cur && (p in prev ==> FullFacts(tc, prev, p) != FullFacts(tc, cur, p))
  {
    var s0 := FullScan(tc, prev);
    var p := writes[0].path;
    assert p in PathsOf(writes);
    if changed > 0 {
      assert writes[..changed][0] == writes[0];
      assert p in PathsOf(writes[..changed]);
    } else {
      assert Changed(tc, s0, cur) == PathsOf([]) == {};
      var d :| d in s0[p].imports && d in Deleted(s0, cur);
      ResolveMembers(tc.parse(p, cur[p]).imports, cur, d);
    }
  }

  lemma {:induction false} FailedIff(tc: Toolchain, cur: Source, g: Guards, x: Scanned)
    requires IncrementalScan(tc, cur, g, x)
    ensures x.outcome.Failed? <==> cur != map[] && (Drifted(g.checksIdentity, x.before)
                                                    || (Hashed(x.before.shards)
                                                        && (!CanParse(tc, FactsOf(x.before.shards), cur)
                                                            || (g.recoveryPending && HasWork(tc, x.before.shards, cur)))))
  {
  }

  /** What a first publication over a mirrored tree leaves on file. */
  lemma {:induction false} FirstStop(tc: Toolchain, prev: Source, cur: Source, writes: seq<Facts>, changed: nat, deletes: seq<Path>,
                                     steps: nat, b: Baseline, b': Baseline)
    requires CollisionFree(tc) && CanParse(tc, FullScan(tc, prev), cur) && cur != map[] && prev != map[]
    requires FactsOf(b.shards) == FullScan(tc, prev) && HasWork(tc, b.shards, cur)
    requires PublishesPlan(tc, cur, writes, changed, deletes, steps, b, b')
    ensures CanParse(tc, FactsOf(b'.shards), cur)
    ensures b'.shards != map[] && (b'.shards == b.shards <==> steps == 0)
  {
    var s0, s1 := FullScan(tc, prev), FactsOf(b'.shards);
    FirstRunIsMixed(tc, prev, cur, writes, changed, deletes, steps);
    RerunParses(tc, prev, cur, s1);
    assert writes == [] ==> PathsOf(writes) == {};
    assert deletes == [] ==> Elements(deletes) == {};
    EveryStepShows(tc, prev, cur, writes, changed, deletes, steps);
    assert s0 != map[] by {
      var p :| p in prev;
      assert p in s0;
    }
    CurrentPathsStay(tc, s0, cur, writes, changed, deletes, steps);
  }

  /** After the first scan over the shards of a tree a rerun is refused exactly when the store checks
      identities, an index was on file, and the stop fell between the first step and the new index. */
  lemma {:induction false} RerunIsRefusedIff(tc: Toolchain, prev: Source, cur: Source, g: Guards, first: Scanned, rerun: Scanned)
    requires CollisionFree(tc) && CanParse(tc, FullScan(tc, prev), cur)
    requires FactsOf(first.before.shards) == FullScan(tc, prev)
    requires first.before.index in {None, Some(first.before.shards)}
    requires IncrementalScan(tc, cur, g, first) && IncrementalScan(tc, cur, g, rerun)
    requires first.outcome.Incremental? && rerun.before == first.after
    ensures rerun.outcome.Failed?
            <==> g.checksIdentity && first.before.index.Some? && first.steps > 0 && first.after.index == first.before.index
  {
    FailedIff(tc, cur, g, rerun);
    var writes, changed: nat, deletes :| PublishesPlan(tc, cur, writes, changed, deletes, first.steps, first.before, first.after);
    assert prev != map[] by {
      var p :| p in first.before.shards;
      assert p in FactsOf(first.before.shards);
    }
    FirstStop(tc, prev, cur, writes, changed, deletes, first.steps, first.before, first.after);
  }

  /** A stopped publication never leaves the store without shards. */
  lemma {:induction false} CurrentPathsStay(tc: Toolchain, s: Shards, cur: Source, writes: seq<Facts>, changed: nat,
                                            deletes: seq<Path>, steps: nat)
    requires IsPlan(tc, s, cur, writes, changed, deletes)
    requires s != map[] && cur != map[]
    ensures AfterSteps(s, writes, deletes, steps) != map[]
  {
    var after := AfterSteps(s, writes, deletes, steps);
    if steps <= |writes| {
      WriteAllIs(tc, s, cur, writes[..steps]);
      var p :| p in s;
      assert p in after;
    } else {
      WriteAllIs(tc, s, cur, writes);
      var p :| p in cur;
      assert p in s || p in Changed(tc, s, cur);
      assert Elements(deletes[..if steps - |writes| <= |deletes| then steps - |writes| else |deletes|]) <= Elements(deletes);
      assert p in after;
    }
  }

  // ---------------------------------------------------------------------------------------------
  // Refusal and recovery
  // ---------------------------------------------------------------------------------------------

  /** Incremental scans of any trees, edits in between. */
  ghost predicate ScansOfTrees(tc: Toolchain, trees: seq<Source>, g: Guards, h: seq<Scanned>) {
    && |trees| == |h|
    && (forall i :: 0 <= i < |h| ==> IncrementalScan(tc, trees[i], g, h[i]))
    && (forall i, j :: 0 <= i < |h| && j == i + 1 < |h| ==> h[j].before == h[i].after)
  }

  /** A refused store stays as it is through any number of incremental scans, whatever is edited
      between them. */
  lemma {:induction false} RefusedStays(tc: Toolchain, trees: seq<Source>, g: Guards, h: seq<Scanned>, k: nat)
    requires ScansOfTrees(tc, trees, g, h) && k < |h|
    requires Drifted(g.checksIdentity, h[0].before)
    ensures h[k].before == h[0].before && h[k].after == h[0].before
    ensures trees[k] != map[] ==> h[k].outcome.Failed?
  {
    assert IncrementalScan(tc, trees[k], g, h[k]);
    if k > 0 {
      RefusedStays(tc, trees, g, h, k - 1);
      assert h[k].before == h[k - 1].after;
    }
  }

  /** A full scan that gets its step through mirrors its tree, whatever was on file, and the next
      incremental scan of that tree has nothing to do. */
  lemma {:induction false} FullScanRecovers(tc: Toolchain, cur: Source, g: Guards, full: Scanned, next: Scanned)
    requires CollisionFree(tc) && cur != map[]
    requires ScanStep(tc, cur, g, false, full.steps, full.before, full.outcome, full.after, full.survived)
    requires full.steps > 0
    requires IncrementalScan(tc, cur, g, next) && next.before == full.after
    ensures full.outcome.Full? && Mirrors(tc, cur, full.after)
    ensures next.outcome.ShortCircuit? && next.after == full.after
  {
    MirrorIsHashed(tc, cur, full.after);
    BaselineChanges(tc, cur, cur);
    var s := FullScan(tc, cur);
    assert Changed(tc, s, cur) == {} && Deleted(s, cur) == {};
    NothingChanged(tc, full.after.shards, cur);
  }

  // ---------------------------------------------------------------------------------------------
  // Convergence with the identity check
  // ---------------------------------------------------------------------------------------------

  /** The outcomes of scanning `cur` over a mirrored `prev`: nothing landed yet, refused, or done. */
  ghost predicate Guarded(tc: Toolchain, prev: Source, cur: Source, g: Guards, b: Baseline)
    requires CanParse(tc, FullScan(tc, prev), cur)
  {
    || Mirrors(tc, prev, b)
    || Drifted(g.checksIdentity, b)
    || FactsOf(b.shards) == RunResult(tc, FullScan(tc, prev), cur)
  }

  /** Over the result of a run there is nothing left to do. */
  lemma {:induction false} ResultIsFinal(tc: Toolchain, prev: Source, cur: Source)
    requires CollisionFree(tc) && CanParse(tc, FullScan(tc, prev), cur)
    ensures var r := RunResult(tc, FullScan(tc, prev), cur);
      ToParse(tc, r, cur) == {} && Deleted(r, cur) == {} && r.Keys == cur.Keys
  {
    CleanBaseline(tc, prev, cur);
    IncrementalRefinesFull(tc, prev, cur);
    var r := RunResult(tc, FullScan(tc, prev), cur);
    forall p | p in cur ensures p !in Changed(tc, r, cur) {
      assert p in r;
    }
    assert Changed(tc, r, cur) == {} && Deleted(r, cur) == {};
  }

  lemma {:induction false} GuardedIsKept(tc: Toolchain, prev: Source, cur: Source, g: Guards, x: Scanned)
    requires CollisionFree(tc) && CanParse(tc, FullScan(tc, prev), cur) && Refuses(g)
    requires IncrementalScan(tc, cur, g, x) && Guarded(tc, prev, cur, g, x.before)
    ensures Guarded(tc, prev, cur, g, x.after)
    ensures Ended(x) ==> FactsOf(x.after.shards) == RunResult(tc, FullScan(tc, prev), cur)
  {
    if cur != map[] && !Drifted(g.checksIdentity, x.before) {
      if Mirrors(tc, prev, x.before) {
        MirroredScan(tc, prev, cur, g, x);
      } else {
        FinalScan(tc, prev, cur, g, x);
      }
    }
  }

  lemma {:induction false} FinalScan(tc: Toolchain, prev: Source, cur: Source, g: Guards, x: Scanned)
    requires CollisionFree(tc) && CanParse(tc, FullScan(tc, prev), cur)
    requires IncrementalScan(tc, cur, g, x) && cur != map[]
    requires FactsOf(x.before.shards) == RunResult(tc, FullScan(tc, prev), cur)
    ensures x.after == x.before
  {
    ResultIsFinal(tc, prev, cur);
    var p :| p in cur;
    assert p in FactsOf(x.before.shards) && p !in Changed(tc, FactsOf(x.before.shards), cur);
    assert x.before.shards[p].facts.contentHash.Some?;
  }

  /** The first scan over a mirrored tree. */
  lemma {:induction false} MirroredScan(tc: Toolchain, prev: Source, cur: Source, g: Guards, x: Scanned)
    requires CollisionFree(tc) && CanParse(tc, FullScan(tc, prev), cur) && cur != map[] && Refuses(g)
    requires IncrementalScan(tc, cur, g, x) && Mirrors(tc, prev, x.before)
    ensures x.after == x.before || Drifted(g.checksIdentity, x.after)
            || FactsOf(x.after.shards) == RunResult(tc, FullScan(tc, prev), cur)
    ensures Ended(x) ==> FactsOf(x.after.shards) == RunResult(tc, FullScan(tc, prev), cur)
  {
    if x.outcome.Full? {
      MirroredFull(tc, prev, cur, x.before);
    } else if x.outcome.Incremental? {
      var writes, changed: nat, deletes :| PublishesPlan(tc, cur, writes, changed, deletes, x.steps, x.before, x.after)
                                           && (x.survived ==> x.steps > |writes| + |deletes|);
      if x.steps > |writes| + |deletes| {
        PlanCompletes(tc, FullScan(tc, prev), cur, writes, changed, deletes, x.steps);
      } else {
        assert prev != map[] by {
          var p :| p in x.before.shards;
          assert p in FactsOf(x.before.shards);
        }
        FirstStop(tc, prev, cur, writes, changed, deletes, x.steps, x.before, x.after);
      }
    } else if x.outcome.ShortCircuit? {
      NothingChanged(tc, x.before.shards, cur);
    }
  }

  lemma {:induction false} MirrorIsHashed(tc: Toolchain, prev: Source, b: Baseline)
    requires FactsOf(b.shards) == FullScan(tc, prev)
    ensures Hashed(b.shards) <==> prev != map[]
  {
    assert FactsOf(b.shards).Keys == b.shards.Keys && FullScan(tc, prev).Keys == prev.Keys;
    if prev != map[] {
      var p :| p in prev;
      assert p in b.shards && b.shards[p].facts == FullScan(tc, prev)[p];
    }
  }

  /** Without a hash on file the mirrored tree was empty, and a full scan is what the run would do. */
  lemma {:induction false} MirroredFull(tc: Toolchain, prev: Source, cur: Source, b: Baseline)
    requires CanParse(tc, FullScan(tc, prev), cur)
    requires Mirrors(tc, prev, b) && !Hashed(b.shards)
    ensures prev == map[] && RunResult(tc, FullScan(tc, prev), cur) == FullScan(tc, cur)
  {
    MirrorIsHashed(tc, prev, b);
    assert FullScan(tc, prev) == map[];
    assert Changed(tc, map[], cur) == cur.Keys;
  }

  lemma {:induction false} ScansStayGuarded(tc: Toolchain, prev: Source, cur: Source, g: Guards, h: seq<Scanned>)
    requires CollisionFree(tc) && CanParse(tc, FullScan(tc, prev), cur) && Refuses(g)
    requires IncrementalScans(tc, cur, g, h) && h != [] && Mirrors(tc, prev, h[0].before)
    ensures Guarded(tc, prev, cur, g, h[|h| - 1].after)
    ensures Ended(h[|h| - 1]) ==> FactsOf(h[|h| - 1].after.shards) == RunResult(tc, FullScan(tc, prev), cur)
  {
    var last := h[|h| - 1];
    assert IncrementalScan(tc, cur, g, last);
    if |h| > 1 {
      ScansStayGuarded(tc, prev, cur, g, h[..|h| - 1]);
      assert last.before == h[|h| - 2].after;
    }
    GuardedIsKept(tc, prev, cur, g, last);
  }

  // ---------------------------------------------------------------------------------------------
  // Convergence without the identity check
  // ---------------------------------------------------------------------------------------------

  /** A scan that is not refused changes the facts on file like an interrupted run. */
  lemma {:induction false} ScanIsARun(tc: Toolchain, prev: Source, cur: Source, x: Scanned)
    requires CollisionFree(tc) && CanParse(tc, FullScan(tc, prev), cur) && cur != map[]
    requires IncrementalScan(tc, cur, UNGUARDED, x)
    requires Mixed(tc, prev, cur, FactsOf(x.before.shards)) && CanParse(tc, FactsOf(x.before.shards), cur)
    ensures !x.outcome.Failed?
    ensures InterruptedRun(tc, cur, FactsOf(x.before.shards), FactsOf(x.after.shards))
    ensures x.survived ==> FactsOf(x.after.shards) == RunResult(tc, FactsOf(x.before.shards), cur)
  {
    var s := FactsOf(x.before.shards);
    if x.outcome.Incremental? {
      IncrementalIsARun(tc, cur, x);
    } else {
      var writes, changed, deletes := PlanExists(tc, s, cur);
      if x.outcome.Full? {
        UnhashedMixed(tc, prev, cur, x.before);
        var steps := if x.steps > 0 then |writes| + |deletes| else 0;
        PlanCompletes(tc, s, cur, writes, changed, deletes, |writes| + |deletes|);
        assert FactsOf(x.after.shards) == AfterSteps(s, writes, deletes, steps);
      } else {
        NothingChanged(tc, x.before.shards, cur);
        assert FactsOf(x.after.shards) == AfterSteps(s, writes, deletes, 0);
      }
    }
  }

  lemma {:induction false} IncrementalIsARun(tc: Toolchain, cur: Source, x: Scanned)
    requires IncrementalScan(tc, cur, UNGUARDED, x) && x.outcome.Incremental?
    requires CanParse(tc, FactsOf(x.before.shards), cur)
    ensures InterruptedRun(tc, cur, FactsOf(x.before.shards), FactsOf(x.after.shards))
    ensures x.survived ==> FactsOf(x.after.shards) == RunResult(tc, FactsOf(x.before.shards), cur)
  {
    var s := FactsOf(x.before.shards);
    var writes, changed: nat, deletes :| PublishesPlan(tc, cur, writes, changed, deletes, x.steps, x.before, x.after)
                                         && (x.survived ==> x.steps > |writes| + |deletes|);
    assert FactsOf(x.after.shards) == AfterSteps(s, writes, deletes, x.steps);
    if x.survived {
      PlanCompletes(tc, s, cur, writes, changed, deletes, x.steps);
    }
  }

  lemma {:induction false} MixedIsHashed(tc: Toolchain, prev: Source, cur: Source, b: Baseline)
    requires Mixed(tc, prev, cur, FactsOf(b.shards))
    ensures Hashed(b.shards) <==> b.shards != map[]
  {
    if b.shards != map[] {
      var p :| p in b.shards;
      assert b.shards[p].facts == FactsOf(b.shards)[p];
    }
  }

  lemma {:induction false} UnhashedMixed(tc: Toolchain, prev: Source, cur: Source, b: Baseline)
    requires CanParse(tc, FullScan(tc, prev), cur) && cur != map[]
    requires Mixed(tc, prev, cur, FactsOf(b.shards)) && CanParse(tc, FactsOf(b.shards), cur) && !Hashed(b.shards)
    ensures FactsOf(b.shards) == map[] && RunResult(tc, FactsOf(b.shards), cur) == FullScan(tc, cur)
  {
    MixedIsHashed(tc, prev, cur, b);
    assert FactsOf(b.shards) == map[];
    assert Changed(tc, map[], cur) == cur.Keys;
  }

  lemma {:induction false} ScansStayMixed(tc: Toolchain, prev: Source, cur: Source, h: seq<Scanned>)
    requires CollisionFree(tc) && CanParse(tc, FullScan(tc, prev), cur) && cur != map[]
    requires ConsumersSettled(tc, prev, cur)
    requires IncrementalScans(tc, cur, UNGUARDED, h) && h != [] && Mirrors(tc, prev, h[0].before)
    ensures Mixed(tc, prev, cur, FactsOf(h[|h| - 1].after.shards))
    ensures !h[|h| - 1].outcome.Failed?
    ensures h[|h| - 1].survived ==> FactsOf(h[|h| - 1].after.shards) == RunResult(tc, FullScan(tc, prev), cur)
  {
    var last := h[|h| - 1];
    assert IncrementalScan(tc, cur, UNGUARDED, last);
    if |h| > 1 {
      ScansStayMixed(tc, prev, cur, h[..|h| - 1]);
      assert last.before == h[|h| - 2].after;
    }
    var s := FactsOf(last.before.shards);
    MixedConverges(tc, prev, cur, s);
    ScanIsARun(tc, prev, cur, last);
    MixedIsKept(tc, prev, cur, s, FactsOf(last.after.shards));
  }

  // ---------------------------------------------------------------------------------------------
  // Exactly when scans converge
  // ---------------------------------------------------------------------------------------------

  /** Whatever incremental scans of `cur` are stopped over a mirrored `prev`, a scan that ends leaves
      what one scan would have left. */
  ghost predicate Converging(tc: Toolchain, prev: Source, cur: Source, g: Guards)
    requires CanParse(tc, FullScan(tc, prev), cur)
  {
    forall h: seq<Scanned> :: IncrementalScans(tc, cur, g, h) && h != [] && Mirrors(tc, prev, h[0].before) && Ended(h[|h| - 1])
      ==> FactsOf(h[|h| - 1].after.shards) == RunResult(tc, FullScan(tc, prev), cur)
  }

  lemma {:induction false} PathCount(writes: seq<Facts>)
    requires OncePerPath(writes)
    ensures |PathsOf(writes)| == |writes|
  {
    if writes != [] {
      var front, last := writes[..|writes| - 1], writes[|writes| - 1];
      PathCount(front);
      assert writes == front + [last];
      assert PathsOf(writes) == PathsOf(front) + {last.path};
      assert last.path !in PathsOf(front);
    }
  }

  /** Without the identity check: stopped as soon as the changed files are written, every next scan
      that ends has lost an unsettled consumer. */
  lemma {:induction false} StoppedScanLosesConsumer(tc: Toolchain, prev: Source, cur: Source, c: Path, first: Scanned, rerun: Scanned)
    requires CollisionFree(tc) && CanParse(tc, FullScan(tc, prev), cur)
    requires c in prev && c in cur && prev[c] == cur[c]
    requires ImportsTouched(tc, prev, cur, c) && !ImportsDeleted(tc, prev, cur, c) && LateResolution(tc, prev, cur, c)
    requires Mirrors(tc, prev, first.before) && first.steps == |Changed(tc, FullScan(tc, prev), cur)|
    requires IncrementalScan(tc, cur, UNGUARDED, first) && IncrementalScan(tc, cur, UNGUARDED, rerun)
    requires rerun.before == first.after && Ended(rerun)
    ensures FactsOf(rerun.after.shards) != RunResult(tc, FullScan(tc, prev), cur)
  {
    LostByTheStop(tc, prev, cur, c, first);
    ScanIsARun(tc, prev, cur, rerun);
  }

  lemma {:induction false} LostByTheStop(tc: Toolchain, prev: Source, cur: Source, c: Path, first: Scanned)
    requires CollisionFree(tc) && CanParse(tc, FullScan(tc, prev), cur)
    requires c in prev && c in cur && prev[c] == cur[c]
    requires ImportsTouched(tc, prev, cur, c) && !ImportsDeleted(tc, prev, cur, c) && LateResolution(tc, prev, cur, c)
    requires Mirrors(tc, prev, first.before) && first.steps == |Changed(tc, FullScan(tc, prev), cur)|
    requires IncrementalScan(tc, cur, UNGUARDED, first)
    ensures var s1 := FactsOf(first.after.shards);
      && Mixed(tc, prev, cur, s1) && CanParse(tc, s1, cur)
      && RunResult(tc, s1, cur) != RunResult(tc, FullScan(tc, prev), cur)
  {
    WorkIsPublished(tc, prev, cur, c, first);
    var writes, changed: nat, deletes :| PublishesPlan(tc, cur, writes, changed, deletes, first.steps, first.before, first.after);
    LostAfterChanged(tc, prev, cur, c, writes, changed, deletes, first.steps, FactsOf(first.after.shards));
  }

  lemma {:induction false} WorkIsPublished(tc: Toolchain, prev: Source, cur: Source, c: Path, first: Scanned)
    requires CollisionFree(tc) && CanParse(tc, FullScan(tc, prev), cur)
    requires c in prev && c in cur && ImportsTouched(tc, prev, cur, c) && !ImportsDeleted(tc, prev, cur, c)
    requires Mirrors(tc, prev, first.before) && IncrementalScan(tc, cur, UNGUARDED, first)
    ensures Publishes(tc, cur, first.steps, first.before, first.after, first.survived)
  {
    MirrorIsHashed(tc, prev, first.before);
    TouchedHasWork(tc, prev, cur, c);
    assert HasWork(tc, first.before.shards, cur);
  }

  lemma {:induction false} LostAfterChanged(tc: Toolchain, prev: Source, cur: Source, c: Path, writes: seq<Facts>, changed: nat,
                                            deletes: seq<Path>, steps: nat, s1: Shards)
    requires CollisionFree(tc) && CanParse(tc, FullScan(tc, prev), cur)
    requires c in prev && c in cur && prev[c] == cur[c]
    requires ImportsTouched(tc, prev, cur, c) && !ImportsDeleted(tc, prev, cur, c) && LateResolution(tc, prev, cur, c)
    requires IsPlan(tc, FullScan(tc, prev), cur, writes, changed, deletes) && steps == |Changed(tc, FullScan(tc, prev), cur)|
    requires s1 == AfterSteps(FullScan(tc, prev), writes, deletes, steps)
    ensures Mixed(tc, prev, cur, s1) && CanParse(tc, s1, cur)
    ensures RunResult(tc, s1, cur) != RunResult(tc, FullScan(tc, prev), cur)
  {
    assert steps == changed by {
      PathCount(writes[..changed]);
    }
    FirstRunIsMixed(tc, prev, cur, writes, changed, deletes, changed);
    UnsettledConsumerIsLost(tc, prev, cur, c, writes, changed, deletes);
  }

  /** An unsettled consumer means that some file has changed. */
  lemma {:induction false} TouchedHasWork(tc: Toolchain, prev: Source, cur: Source, c: Path)
    requires CollisionFree(tc)
    requires c in prev && ImportsTouched(tc, prev, cur, c) && !ImportsDeleted(tc, prev, cur, c)
    ensures Changed(tc, FullScan(tc, prev), cur) != {} && ToParse(tc, FullScan(tc, prev), cur) != {}
  {
    CleanBaseline(tc, prev, cur);
    var r :| r in tc.parse(c, prev[c]).imports && r.target in prev && (r.target !in cur || cur[r.target] != prev[r.target]);
    assert r.target in Changed(tc, FullScan(tc, prev), cur);
  }

  function WithCarried(s: Shards, carried: Carried): map<Path, Entry> {
    map p | p in s :: Entry(s[p], carried)
  }

  /** A publication with any number of steps that a plan of the shards could make. */
  lemma {:induction false} ScanWith(tc: Toolchain, cur: Source, b: Baseline, steps: nat, writes: seq<Facts>, changed: nat, deletes: seq<Path>,
                                    survived: bool) returns (x: Scanned)
    requires cur != map[] && Hashed(b.shards) && CanParse(tc, FactsOf(b.shards), cur) && HasWork(tc, b.shards, cur)
    requires IsPlan(tc, FactsOf(b.shards), cur, writes, changed, deletes) && steps > 0
    requires survived ==> steps > |writes| + |deletes|
    ensures x.before == b && x.steps == steps && x.survived == survived && x.outcome == Incremental
    ensures IncrementalScan(tc, cur, UNGUARDED, x)
  {
    var after := WithCarried(AfterSteps(FactsOf(b.shards), writes, deletes, steps), Carried(0, 0.0, None));
    assert FactsOf(after) == AfterSteps(FactsOf(b.shards), writes, deletes, steps);
    var b' := Baseline(after, if steps > |writes| + |deletes| then Some(after) else b.index);
    x := Scanned(b, steps, Incremental, b', survived);
    assert PublishesPlan(tc, cur, writes, changed, deletes, steps, b, b');
  }

  /** One scan that ends, from any hashed shards. */
  lemma {:induction false} EndedScan(tc: Toolchain, cur: Source, b: Baseline) returns (x: Scanned)
    requires cur != map[] && Hashed(b.shards) && CanParse(tc, FactsOf(b.shards), cur)
    ensures x.before == b && Ended(x) && IncrementalScan(tc, cur, UNGUARDED, x)
  {
    if HasWork(tc, b.shards, cur) {
      var writes, changed, deletes := PlanExists(tc, FactsOf(b.shards), cur);
      x := ScanWith(tc, cur, b, |writes| + |deletes| + 1, writes, changed, deletes, true);
    } else {
      x := Scanned(b, 1, ShortCircuit, b, true);
    }
  }

  lemma {:induction false} UnsettledDiverges(tc: Toolchain, prev: Source, cur: Source, c: Path)
    requires CollisionFree(tc) && CanParse(tc, FullScan(tc, prev), cur)
    requires c in prev && c in cur && prev[c] == cur[c]
    requires ImportsTouched(tc, prev, cur, c) && !ImportsDeleted(tc, prev, cur, c) && LateResolution(tc, prev, cur, c)
    ensures !Converging(tc, prev, cur, UNGUARDED)
  {
    var first, rerun := LosingScans(tc, prev, cur, c);
    assert FactsOf(rerun.after.shards) != RunResult(tc, FullScan(tc, prev), cur) by {
      StoppedScanLosesConsumer(tc, prev, cur, c, first, rerun);
    }
    NotConverging(tc, prev, cur, first, rerun);
  }

  lemma {:induction false} NotConverging(tc: Toolchain, prev: Source, cur: Source, first: Scanned, rerun: Scanned)
    requires CanParse(tc, FullScan(tc, prev), cur) && Mirrors(tc, prev, first.before)
    requires IncrementalScan(tc, cur, UNGUARDED, first) && IncrementalScan(tc, cur, UNGUARDED, rerun)
    requires rerun.before == first.after && Ended(rerun)
    requires FactsOf(rerun.after.shards) != RunResult(tc, FullScan(tc, prev), cur)
    ensures !Converging(tc, prev, cur, UNGUARDED)
  {
    var h := [first, rerun];
    TwoScans(tc, cur, first, rerun);
    assert h[0] == first && h[|h| - 1] == rerun;
  }

  lemma {:induction false} TwoScans(tc: Toolchain, cur: Source, first: Scanned, rerun: Scanned)
    requires IncrementalScan(tc, cur, UNGUARDED, first) && IncrementalScan(tc, cur, UNGUARDED, rerun)
    requires rerun.before == first.after
    ensures IncrementalScans(tc, cur, UNGUARDED, [first, rerun])
  {
    var h := [first, rerun];
    forall i | 0 <= i < |h| ensures IncrementalScan(tc, cur, UNGUARDED, h[i]) {
      assert h[i] == first || h[i] == rerun;
    }
  }

  lemma {:induction false} LosingScans(tc: Toolchain, prev: Source, cur: Source, c: Path) returns (first: Scanned, rerun: Scanned)
    requires CollisionFree(tc) && CanParse(tc, FullScan(tc, prev), cur)
    requires c in prev && c in cur
    requires ImportsTouched(tc, prev, cur, c) && !ImportsDeleted(tc, prev, cur, c)
    ensures Mirrors(tc, prev, first.before) && first.steps == |Changed(tc, FullScan(tc, prev), cur)|
    ensures IncrementalScan(tc, cur, UNGUARDED, first) && IncrementalScan(tc, cur, UNGUARDED, rerun)
    ensures rerun.before == first.after && Ended(rerun)
  {
    var s0 := FullScan(tc, prev);
    var m0 := WithCarried(s0, Carried(0, 0.0, None));
    assert FactsOf(m0) == s0;
    var b := Baseline(m0, Some(m0));
    MirrorIsHashed(tc, prev, b);
    TouchedHasWork(tc, prev, cur, c);
    var writes, changed, deletes := PlanExists(tc, s0, cur);
    PathCount(writes[..changed]);
    first := ScanWith(tc, cur, b, changed, writes, changed, deletes, false);
    FirstScan(tc, prev, cur, first);
    rerun := EndedScan(tc, cur, first.after);
  }

  /** What the first stopped scan leaves can be scanned again. */
  lemma {:induction false} FirstScan(tc: Toolchain, prev: Source, cur: Source, first: Scanned)
    requires CollisionFree(tc) && CanParse(tc, FullScan(tc, prev), cur) && cur != map[] && prev != map[]
    requires Mirrors(tc, prev, first.before) && HasWork(tc, first.before.shards, cur)
    requires IncrementalScan(tc, cur, UNGUARDED, first) && first.outcome.Incremental?
    ensures Hashed(first.after.shards) && CanParse(tc, FactsOf(first.after.shards), cur)
  {
    var writes, changed: nat, deletes :| PublishesPlan(tc, cur, writes, changed, deletes, first.steps, first.before, first.after);
    FirstRunIsMixed(tc, prev, cur, writes, changed, deletes, first.steps);
    FirstStop(tc, prev, cur, writes, changed, deletes, first.steps, first.before, first.after);
    MixedIsHashed(tc, prev, cur, first.after);
  }

  /** Stopped scans converge exactly when the store refuses what they leave, or no unchanged consumer
      of a touched file, without deleted imports, resolves an import late. */
  lemma {:induction false} ScansConvergeIff(tc: Toolchain, prev: Source, cur: Source, g: Guards)
    requires CollisionFree(tc)
    requires CanParse(tc, FullScan(tc, prev), cur)
    ensures Converging(tc, prev, cur, g) <==> Refuses(g) || ConsumersSettled(tc, prev, cur)
  {
    if !Refuses(g) && !ConsumersSettled(tc, prev, cur) {
      var c :| c in prev && c in cur && prev[c] == cur[c] && ImportsTouched(tc, prev, cur, c)
               && !ImportsDeleted(tc, prev, cur, c) && LateResolution(tc, prev, cur, c);
      UnsettledDiverges(tc, prev, cur, c);
    } else {
      forall h: seq<Scanned> | IncrementalScans(tc, cur, g, h) && h != [] && Mirrors(tc, prev, h[0].before) && Ended(h[|h| - 1])
        ensures FactsOf(h[|h| - 1].after.shards) == RunResult(tc, FullScan(tc, prev), cur)
      {
        assert IncrementalScan(tc, cur, g, h[|h| - 1]);
        if Refuses(g) {
          ScansStayGuarded(tc, prev, cur, g, h);
        } else {
          ScansStayMixed(tc, prev, cur, h);
        }
      }
    }
  }
}
