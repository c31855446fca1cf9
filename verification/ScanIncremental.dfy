/** Incremental scan against full scan.
    The baseline is a map from path to the persisted facts of one file.  An incremental run parses
    the changed files and the direct consumers of changed or deleted files, reuses every other
    entry, and then publishes shard by shard.  This module states what one run produces, when it
    agrees with a full scan, and what a crash during publication leaves behind on the shards. */
module ScanIncremental {
  import opened Seqs

  type Path = string
  type Hash = string
  type Source = map<Path, string>

  datatype FileKind = Production | Test | Auxiliary

  /** A raw import names one target path; it resolves exactly when that target exists. */
  datatype RawImport = RawImport(target: Path, reexport: bool)

  /** Metrics computed from the text of one file alone. */
  datatype Metrics = Metrics(weightedBranchTotal: nat, maxFuncBranch: Option<nat>, nestingDepth: nat,
                             loc: nat, declarationLoc: nat)

  datatype Parsed = Parsed(imports: seq<RawImport>, metrics: Metrics)

  /** Content hashing, parsing and file classification, all deterministic. */
  datatype Toolchain = Toolchain(hash: string -> Hash, parse: (Path, string) -> Parsed, classify: Path -> FileKind)

  /** Every parser reports the largest function of a file. */
  ghost predicate MeasuresFunctions(tc: Toolchain) {
    forall p, text :: tc.parse(p, text).metrics.maxFuncBranch.Some?
  }

  ghost predicate CollisionFree(tc: Toolchain) {
    forall a, b :: tc.hash(a) == tc.hash(b) ==> a == b
  }

  /** The part of a baseline entry that depends only on the sources. */
  datatype Facts = Facts(path: Path, kind: FileKind, contentHash: Option<Hash>, imports: seq<Path>,
                         reexports: seq<Path>, outDegree: nat, metrics: Metrics)

  type Shards = map<Path, Facts>

  function Resolve(raw: seq<RawImport>, src: Source): seq<Path> {
    if raw == [] then []
    else if raw[0].target in src then [raw[0].target] + Resolve(raw[1..], src)
    else Resolve(raw[1..], src)
  }

  function Reexports(raw: seq<RawImport>): seq<RawImport> {
    Filter(raw, (r: RawImport) => r.reexport)
  }

  /** The facts a parse of `p` yields against the tree `src`. */
  function FullFacts(tc: Toolchain, src: Source, p: Path): Facts
    requires p in src
  {
    var parsed := tc.parse(p, src[p]);
    Facts(p, tc.classify(p), Some(tc.hash(src[p])), Resolve(parsed.imports, src),
          Resolve(Reexports(parsed.imports), src), |parsed.imports|, parsed.metrics)
  }

  function FullScan(tc: Toolchain, src: Source): Shards {
    map p | p in src :: FullFacts(tc, src, p)
  }

  // ---------------------------------------------------------------------------------------------
  // What the facts of one file are, item by item
  // ---------------------------------------------------------------------------------------------

  /** A raw import that resolves; of the re-exports only, if `reexports`. */
  predicate Listed(r: RawImport, src: Source, reexports: bool) {
    r.target in src && (reexports ==> r.reexport)
  }

  ghost predicate Increasing(at: seq<nat>) {
    forall i, j :: 0 <= i < j < |at| ==> at[i] < at[j]
  }

  /** `at` are the positions of the listed imports. */
  ghost predicate ListedAt(raw: seq<RawImport>, src: Source, reexports: bool, at: seq<nat>) {
    && Increasing(at)
    && (forall j :: j in at ==> j < |raw|)
    && forall j :: 0 <= j < |raw| ==> (j in at <==> Listed(raw[j], src, reexports))
  }

  ghost predicate TargetsAt(raw: seq<RawImport>, at: seq<nat>, targets: seq<Path>) {
    |targets| == |at| && forall i :: 0 <= i < |at| ==> at[i] < |raw| && raw[at[i]].target == targets[i]
  }

  /** One target for every listed import, in the order of the imports. */
  ghost predicate ListsTargets(raw: seq<RawImport>, src: Source, reexports: bool, targets: seq<Path>) {
    exists at :: ListedAt(raw, src, reexports, at) && TargetsAt(raw, at, targets)
  }

  /** The facts `f` of the file `p` in the tree `src`: its imports are the resolved ones, its re-exports
      those of them that re-export, its out-degree counts the unresolved ones as well. */
  ghost predicate Records(tc: Toolchain, src: Source, p: Path, f: Facts)
    requires p in src
  {
    var parsed := tc.parse(p, src[p]);
    && f.path == p && f.kind == tc.classify(p) && f.contentHash == Some(tc.hash(src[p]))
    && f.outDegree == |parsed.imports| && f.metrics == parsed.metrics
    && ListsTargets(parsed.imports, src, false, f.imports)
    && ListsTargets(parsed.imports, src, true, f.reexports)
  }

  lemma {:induction false} ResolveAppend(raw: seq<RawImport>, r: RawImport, src: Source)
    ensures Resolve(raw + [r], src) == Resolve(raw, src) + if r.target in src then [r.target] else []
  {
    if raw == [] {
      assert raw + [r] == [r] && [r][1..] == [];
    } else {
      assert (raw + [r])[1..] == raw[1..] + [r];
      ResolveAppend(raw[1..], r, src);
    }
  }

  /** The imports a full scan considers for the one list or the other. */
  function Selected(raw: seq<RawImport>, reexports: bool): seq<RawImport> {
    if reexports then Reexports(raw) else raw
  }

  lemma {:induction false} SelectedAppend(raw: seq<RawImport>, r: RawImport, src: Source, reexports: bool)
    ensures Resolve(Selected(raw + [r], reexports), src)
            == Resolve(Selected(raw, reexports), src) + if Listed(r, src, reexports) then [r.target] else []
  {
    FilterAppend(raw, r, (x: RawImport) => x.reexport);
    ResolveAppend(Selected(raw, reexports), r, src);
    assert Selected(raw, reexports) + [] == Selected(raw, reexports);
  }

  lemma {:induction false} ResolvePositions(raw: seq<RawImport>, src: Source, reexports: bool) returns (at: seq<nat>)
    ensures ListedAt(raw, src, reexports, at) && TargetsAt(raw, at, Resolve(Selected(raw, reexports), src))
  {
    if raw == [] {
      at := [];
    } else {
      var n := |raw| - 1;
      var before := ResolvePositions(raw[..n], src, reexports);
      assert raw == raw[..n] + [raw[n]];
      SelectedAppend(raw[..n], raw[n], src, reexports);
      at := before + if Listed(raw[n], src, reexports) then [n] else [];
      forall j | 0 <= j < |raw| ensures j in at <==> Listed(raw[j], src, reexports) {
        assert j < n ==> raw[..n][j] == raw[j];
        assert j in before ==> j < n;
      }
      forall i | 0 <= i < |at| ensures at[i] < |raw| && raw[at[i]].target == Resolve(Selected(raw, reexports), src)[i] {
        assert i < |before| ==> raw[..n][before[i]] == raw[before[i]];
      }
    }
  }

  lemma {:induction false} IncreasingIsUnique(a: seq<nat>, b: seq<nat>)
    requires Increasing(a) && Increasing(b) && forall x :: x in a <==> x in b
    ensures a == b
  {
    EmptyTogether(a, b);
    if a != [] {
      var m, n := |a| - 1, |b| - 1;
      assert a[m] in b && b[n] in a;
      assert a[m] == b[n];
      forall x ensures x in a[..m] <==> x in b[..n] {
        assert x in a[..m] <==> x in a && x != a[m];
        assert x in b[..n] <==> x in b && x != b[n];
      }
      IncreasingIsUnique(a[..m], b[..n]);
    }
  }

  lemma {:induction false} TargetsAreUnique(raw: seq<RawImport>, src: Source, reexports: bool, a: seq<Path>, b: seq<Path>)
    requires ListsTargets(raw, src, reexports, a) && ListsTargets(raw, src, reexports, b)
    ensures a == b
  {
    var at :| ListedAt(raw, src, reexports, at) && TargetsAt(raw, at, a);
    var at' :| ListedAt(raw, src, reexports, at') && TargetsAt(raw, at', b);
    IncreasingIsUnique(at, at');
  }

  /** The facts a parse yields are exactly those that record the file. */
  lemma {:induction false} RecordsIff(tc: Toolchain, src: Source, p: Path, f: Facts)
    requires p in src
    ensures Records(tc, src, p, f) <==> f == FullFacts(tc, src, p)
  {
    var raw := tc.parse(p, src[p]).imports;
    var at := ResolvePositions(raw, src, false);
    var at' := ResolvePositions(raw, src, true);
    assert Records(tc, src, p, FullFacts(tc, src, p));
    if Records(tc, src, p, f) {
      TargetsAreUnique(raw, src, false, f.imports, FullFacts(tc, src, p).imports);
      TargetsAreUnique(raw, src, true, f.reexports, FullFacts(tc, src, p).reexports);
    }
  }

  /** A target is recorded as a re-export exactly when it is in the tree and some import re-exports it;
      as an import exactly when it is in the tree and imported at all. */
  lemma {:induction false} RecordedTargets(tc: Toolchain, src: Source, p: Path, f: Facts, t: Path)
    requires p in src && Records(tc, src, p, f)
    ensures var raw := tc.parse(p, src[p]).imports;
      && (t in f.imports <==> t in src && exists r :: r in raw && r.target == t)
      && (t in f.reexports <==> t in src && exists r :: r in raw && r.target == t && r.reexport)
  {
    var raw := tc.parse(p, src[p]).imports;
    TargetIsListed(raw, src, false, f.imports, t);
    TargetIsListed(raw, src, true, f.reexports, t);
  }

  lemma {:induction false} TargetIsListed(raw: seq<RawImport>, src: Source, reexports: bool, targets: seq<Path>, t: Path)
    requires ListsTargets(raw, src, reexports, targets)
    ensures t in targets <==> exists r :: r in raw && r.target == t && Listed(r, src, reexports)
  {
    var at :| ListedAt(raw, src, reexports, at) && TargetsAt(raw, at, targets);
    if t in targets {
      var i :| 0 <= i < |targets| && targets[i] == t;
      assert at[i] in at;
    }
    if exists r :: r in raw && r.target == t && Listed(r, src, reexports) {
      var r :| r in raw && r.target == t && Listed(r, src, reexports);
      var j :| 0 <= j < |raw| && raw[j] == r;
      var i :| 0 <= i < |at| && at[i] == j;
      assert targets[i] == t;
    }
  }

  // ---------------------------------------------------------------------------------------------
  // One incremental run
  // ---------------------------------------------------------------------------------------------

  function Changed(tc: Toolchain, s: Shards, cur: Source): set<Path> {
    set p | p in cur && (p !in s || s[p].contentHash != Some(tc.hash(cur[p])))
  }

  /** A path without a stored hash is never reported as deleted. */
  function Deleted(s: Shards, cur: Source): set<Path> {
    set p | p in s && s[p].contentHash.Some? && p !in cur
  }

  function Consumers(s: Shards, targets: set<Path>): set<Path> {
    set q | q in s && exists d :: d in s[q].imports && d in targets
  }

  /** Deleted paths are not subtracted. */
  function ToParse(tc: Toolchain, s: Shards, cur: Source): set<Path> {
    Changed(tc, s, cur) + Consumers(s, Changed(tc, s, cur) + Deleted(s, cur))
  }

  /** Parsing a path that is gone fails, and with it the whole run. */
  predicate CanParse(tc: Toolchain, s: Shards, cur: Source) {
    ToParse(tc, s, cur) <= cur.Keys
  }

  /** What a run leaves behind when its publication is not interrupted. */
  function RunResult(tc: Toolchain, s: Shards, cur: Source): Shards
    requires CanParse(tc, s, cur)
  {
    map p | p in (s.Keys - Deleted(s, cur)) + Changed(tc, s, cur) ::
      if p in ToParse(tc, s, cur) then FullFacts(tc, cur, p) else s[p]
  }

  /** An import of `p` that was unresolved in `prev` and resolves in `cur`. */
  ghost predicate LateResolution(tc: Toolchain, prev: Source, cur: Source, p: Path)
    requires p in cur
  {
    exists r :: r in tc.parse(p, cur[p]).imports && r.target in cur && r.target !in prev
  }

  ghost predicate ImportsDeleted(tc: Toolchain, prev: Source, cur: Source, p: Path)
    requires p in prev
  {
    exists r :: r in tc.parse(p, prev[p]).imports && r.target in prev && r.target !in cur
  }

  ghost predicate ImportsTouched(tc: Toolchain, prev: Source, cur: Source, p: Path)
    requires p in prev
  {
    exists r :: r in tc.parse(p, prev[p]).imports && r.target in prev
                && (r.target !in cur || cur[r.target] != prev[r.target])
  }

  lemma {:induction false} ResolveMembers(raw: seq<RawImport>, src: Source, t: Path)
    ensures t in Resolve(raw, src) <==> t in src && exists r :: r in raw && r.target == t
  {
    if raw != [] {
      ResolveMembers(raw[1..], src, t);
      assert raw == [raw[0]] + raw[1..];
    }
  }

  /** Resolving the same imports in two trees gives the same list exactly when no target tells them apart. */
  lemma {:induction false} ResolveAgrees(raw: seq<RawImport>, a: Source, b: Source)
    requires forall r :: r in raw && r.target in a ==> r.target in b
    ensures |Resolve(raw, a)| <= |Resolve(raw, b)|
    ensures Resolve(raw, a) == Resolve(raw, b) <==> forall r :: r in raw && r.target in b ==> r.target in a
    ensures |Resolve(raw, a)| == |Resolve(raw, b)| ==> Resolve(raw, a) == Resolve(raw, b)
  {
    if raw != [] {
      ResolveAgrees(raw[1..], a, b);
      assert raw == [raw[0]] + raw[1..];
    }
  }

  /** For an unchanged file none of whose imports was deleted, the old facts are the new facts
      exactly when no import of it resolves late. */
  lemma {:induction false} UnchangedFacts(tc: Toolchain, prev: Source, cur: Source, p: Path)
    requires p in prev && p in cur && prev[p] == cur[p]
    requires !ImportsDeleted(tc, prev, cur, p)
    ensures FullFacts(tc, prev, p) == FullFacts(tc, cur, p) <==> !LateResolution(tc, prev, cur, p)
  {
    var raw := tc.parse(p, cur[p]).imports;
    ResolveAgrees(raw, prev, cur);
    ResolveAgrees(Reexports(raw), prev, cur);
  }

  /** The change detector, on a baseline that mirrors `prev`. */
  lemma {:induction false} CleanBaseline(tc: Toolchain, prev: Source, cur: Source)
    requires CollisionFree(tc)
    ensures var s := FullScan(tc, prev);
      && Changed(tc, s, cur) == (set p | p in cur && (p !in prev || prev[p] != cur[p]))
      && Deleted(s, cur) == prev.Keys - cur.Keys
      && Consumers(s, Changed(tc, s, cur) + Deleted(s, cur))
         == (set q | q in prev && ImportsTouched(tc, prev, cur, q))
      && Consumers(s, Deleted(s, cur)) == (set q | q in prev && ImportsDeleted(tc, prev, cur, q))
  {
    var s := FullScan(tc, prev);
    var changed, deleted := Changed(tc, s, cur), Deleted(s, cur);
    BaselineChanges(tc, prev, cur);
    forall q | q in prev
      ensures q in Consumers(s, changed + deleted) <==> ImportsTouched(tc, prev, cur, q)
      ensures q in Consumers(s, deleted) <==> ImportsDeleted(tc, prev, cur, q)
    {
      BaselineConsumer(tc, prev, q, changed + deleted);
      BaselineConsumer(tc, prev, q, deleted);
    }
  }

  lemma {:induction false} BaselineChanges(tc: Toolchain, prev: Source, cur: Source)
    requires CollisionFree(tc)
    ensures Changed(tc, FullScan(tc, prev), cur) == (set p | p in cur && (p !in prev || prev[p] != cur[p]))
    ensures Deleted(FullScan(tc, prev), cur) == prev.Keys - cur.Keys
  {
  }

  /** A file of the baseline consumes a target exactly when one of its raw imports resolves to it. */
  lemma {:induction false} BaselineConsumer(tc: Toolchain, prev: Source, q: Path, targets: set<Path>)
    requires q in prev
    ensures q in Consumers(FullScan(tc, prev), targets)
            <==> exists r :: r in tc.parse(q, prev[q]).imports && r.target in prev && r.target in targets
  {
    var raw, s := tc.parse(q, prev[q]).imports, FullScan(tc, prev);
    forall t ensures t in s[q].imports <==> t in prev && exists r :: r in raw && r.target == t {
      ResolveMembers(raw, prev, t);
    }
    if exists r :: r in raw && r.target in prev && r.target in targets {
      var r :| r in raw && r.target in prev && r.target in targets;
      assert r.target in s[q].imports;
    }
  }

  /** The run fails exactly when some deleted file imported a changed or deleted one. */
  lemma {:induction false} RunFailsIff(tc: Toolchain, prev: Source, cur: Source)
    requires CollisionFree(tc)
    ensures CanParse(tc, FullScan(tc, prev), cur)
            <==> forall p :: p in prev && p !in cur ==> !ImportsTouched(tc, prev, cur, p)
  {
    CleanBaseline(tc, prev, cur);
    var s := FullScan(tc, prev);
    if CanParse(tc, s, cur) {
      forall p | p in prev && p !in cur ensures !ImportsTouched(tc, prev, cur, p) {
        assert p !in ToParse(tc, s, cur);
      }
    }
  }

  /** Incremental refines full, and exactly when: every file the run did not parse must have no
      import that resolves only now. */
  lemma {:induction false} IncrementalRefinesFull(tc: Toolchain, prev: Source, cur: Source)
    requires CollisionFree(tc)
    requires CanParse(tc, FullScan(tc, prev), cur)
    ensures var s := FullScan(tc, prev);
      && RunResult(tc, s, cur).Keys == cur.Keys
      && (RunResult(tc, s, cur) == FullScan(tc, cur)
          <==> forall p :: p in cur && p !in ToParse(tc, s, cur) ==> !LateResolution(tc, prev, cur, p))
  {
    CleanBaseline(tc, prev, cur);
    var s := FullScan(tc, prev);
    var r := RunResult(tc, s, cur);
    forall p | p in cur && p !in ToParse(tc, s, cur)
      ensures r[p] == FullFacts(tc, cur, p) <==> !LateResolution(tc, prev, cur, p)
    {
      assert p in prev && prev[p] == cur[p];
      assert !ImportsTouched(tc, prev, cur, p);
      UnchangedFacts(tc, prev, cur, p);
    }
    if r == FullScan(tc, cur) {
      forall p | p in cur && p !in ToParse(tc, s, cur) ensures !LateResolution(tc, prev, cur, p) {
        assert r[p] == FullScan(tc, cur)[p];
      }
    }
  }

  /** A baseline entry without a hash whose file is gone survives the run; with every entry
      hashed the run's paths are exactly the current ones. */
  lemma {:induction false} GhostEntriesIff(tc: Toolchain, s: Shards, cur: Source)
    requires CanParse(tc, s, cur)
    ensures RunResult(tc, s, cur).Keys == cur.Keys
            <==> forall p :: p in s && p !in cur ==> s[p].contentHash.Some?
  {
    var r := RunResult(tc, s, cur);
    if r.Keys == cur.Keys {
      forall p | p in s && p !in cur ensures s[p].contentHash.Some? {
        assert p !in r.Keys;
      }
    }
  }

  // ---------------------------------------------------------------------------------------------
  // Publication step by step
  // ---------------------------------------------------------------------------------------------

  function WriteAll(s: Shards, writes: seq<Facts>): Shards {
    if writes == [] then s
    else WriteAll(s, writes[..|writes| - 1])[writes[|writes| - 1].path := writes[|writes| - 1]]
  }

  /** The shards after the first `k` publication steps: the writes in order, then the deletes. */
  function AfterSteps(s: Shards, writes: seq<Facts>, deletes: seq<Path>, k: nat): Shards {
    if k <= |writes| then WriteAll(s, writes[..k])
    else WriteAll(s, writes) - Elements(deletes[..if k - |writes| <= |deletes| then k - |writes| else |deletes|])
  }

  function PathsOf(writes: seq<Facts>): set<Path> {
    set w | w in writes :: w.path
  }

  lemma {:induction false} WriteAllIs(tc: Toolchain, s: Shards, cur: Source, writes: seq<Facts>)
    requires forall w :: w in writes ==> w.path in cur && w == FullFacts(tc, cur, w.path)
    ensures WriteAll(s, writes).Keys == s.Keys + PathsOf(writes)
    ensures forall p :: p in WriteAll(s, writes) ==>
      WriteAll(s, writes)[p] == if p in PathsOf(writes) then FullFacts(tc, cur, p) else s[p]
  {
    if writes != [] {
      var front, last := writes[..|writes| - 1], writes[|writes| - 1];
      assert writes == front + [last];
      WriteAllIs(tc, s, cur, front);
      assert PathsOf(writes) == PathsOf(front) + {last.path};
    }
  }

  predicate OncePerPath(writes: seq<Facts>) {
    forall i, j :: 0 <= i < j < |writes| ==> writes[i].path != writes[j].path
  }

  /** What the run writes and deletes: changed files first, then the other parsed files. */
  ghost predicate IsPlan(tc: Toolchain, s: Shards, cur: Source, writes: seq<Facts>, changed: nat, deletes: seq<Path>) {
    && changed <= |writes|
    && OncePerPath(writes[..changed])
    && (forall w :: w in writes ==> w.path in cur && w == FullFacts(tc, cur, w.path))
    && PathsOf(writes[..changed]) == Changed(tc, s, cur)
    && PathsOf(writes) == ToParse(tc, s, cur)
    && Elements(deletes) == Deleted(s, cur)
  }

  lemma {:induction false} PlanCompletes(tc: Toolchain, s: Shards, cur: Source, writes: seq<Facts>, changed: nat,
                                         deletes: seq<Path>, k: nat)
    requires IsPlan(tc, s, cur, writes, changed, deletes)
    requires k >= |writes| + |deletes|
    ensures CanParse(tc, s, cur)
    ensures AfterSteps(s, writes, deletes, k) == RunResult(tc, s, cur)
  {
    WriteAllIs(tc, s, cur, writes);
    assert deletes[..|deletes|] == deletes && writes[..|writes|] == writes;
    assert CanParse(tc, s, cur) by {
      forall p | p in ToParse(tc, s, cur) ensures p in cur {
        assert p in PathsOf(writes);
      }
    }
    var all := WriteAll(s, writes);
    assert all.Keys == s.Keys + ToParse(tc, s, cur);
    AfterAll(s, writes, deletes, k);
    SameShards(tc, s, cur, all);
  }

  lemma {:induction false} AfterAll(s: Shards, writes: seq<Facts>, deletes: seq<Path>, k: nat)
    requires k >= |writes| + |deletes|
    ensures AfterSteps(s, writes, deletes, k) == WriteAll(s, writes) - Elements(deletes)
  {
    assert deletes[..|deletes|] == deletes && writes[..|writes|] == writes;
    assert deletes == [] ==> WriteAll(s, writes) - Elements(deletes) == WriteAll(s, writes);
  }

  lemma {:induction false} SameShards(tc: Toolchain, s: Shards, cur: Source, all: Shards)
    requires CanParse(tc, s, cur)
    requires all.Keys == s.Keys + ToParse(tc, s, cur)
    requires forall p :: p in all ==> all[p] == if p in ToParse(tc, s, cur) then FullFacts(tc, cur, p) else s[p]
    ensures all - Deleted(s, cur) == RunResult(tc, s, cur)
  {
    var left, right := all - Deleted(s, cur), RunResult(tc, s, cur);
    var parse, gone := ToParse(tc, s, cur), Deleted(s, cur);
    forall p ensures p in left <==> p in right {
      if p in parse {
        assert p in cur && p !in gone;
        assert p in Changed(tc, s, cur) || p in s;
      }
    }
    assert left.Keys == right.Keys;
  }

  // ---------------------------------------------------------------------------------------------
  // Crashes
  // ---------------------------------------------------------------------------------------------

  /** One run over `s`, stopped after `k` publication steps. */
  ghost predicate InterruptedRun(tc: Toolchain, cur: Source, s: Shards, s': Shards) {
    exists writes, changed: nat, deletes, k: nat ::
      IsPlan(tc, s, cur, writes, changed, deletes) && s' == AfterSteps(s, writes, deletes, k)
  }

  /** Any number of interrupted runs, one after the other. */
  ghost predicate InterruptedRuns(tc: Toolchain, cur: Source, states: seq<Shards>) {
    && states != []
    && forall i :: 0 <= i < |states| - 1 ==> InterruptedRun(tc, cur, states[i], states[i + 1])
  }

  /** What interrupted runs over the baseline of `prev` can leave on disk: every shard is the old
      or the new one, no surviving file has lost its shard, and deletes only happen once all
      parsed files are written. */
  ghost predicate Mixed(tc: Toolchain, prev: Source, cur: Source, s: Shards) {
    var parsed := ToParse(tc, FullScan(tc, prev), cur);
    && (forall p :: p in s ==>
          || (p in prev && s[p] == FullFacts(tc, prev, p))
          || (p in cur && p in parsed && s[p] == FullFacts(tc, cur, p)))
    && (forall p :: p in prev && p in cur ==> p in s)
    && ((exists d :: d in prev && d !in cur && d !in s) ==>
          forall p :: p in parsed && p in cur ==> p in s && s[p] == FullFacts(tc, cur, p))
  }

  /** On a mixed state the rerun parses nothing the first run would not have parsed, and it
      misses only files whose new facts are already there or equal the old ones. */
  lemma {:induction false} RerunParses(tc: Toolchain, prev: Source, cur: Source, s: Shards)
    requires CollisionFree(tc)
    requires CanParse(tc, FullScan(tc, prev), cur)
    requires Mixed(tc, prev, cur, s)
    ensures ToParse(tc, s, cur) <= ToParse(tc, FullScan(tc, prev), cur)
    ensures Deleted(s, cur) == s.Keys - cur.Keys
    ensures Changed(tc, s, cur) <= Changed(tc, FullScan(tc, prev), cur)
  {
    CleanBaseline(tc, prev, cur);
    var s0 := FullScan(tc, prev);
    forall p | p in Changed(tc, s, cur) ensures p in Changed(tc, s0, cur) {
      if p in s {
        assert s[p] != FullFacts(tc, cur, p);
        assert tc.hash(prev[p]) != tc.hash(cur[p]);
      }
    }
    forall q | q in Consumers(s, Changed(tc, s, cur) + Deleted(s, cur)) ensures q in ToParse(tc, s0, cur) {
      if q !in prev || s[q] != FullFacts(tc, prev, q) {
      } else {
        var d :| d in s[q].imports && d in Changed(tc, s, cur) + Deleted(s, cur);
        ResolveMembers(tc.parse(q, prev[q]).imports, prev, d);
        assert d in Changed(tc, s0, cur) + Deleted(s0, cur);
        assert d in s0[q].imports;
      }
    }
  }

  /** A file parsed only because an import of it changed must not also resolve an import late. */
  ghost predicate ConsumersSettled(tc: Toolchain, prev: Source, cur: Source) {
    forall p :: p in prev && p in cur && prev[p] == cur[p]
                && ImportsTouched(tc, prev, cur, p) && !ImportsDeleted(tc, prev, cur, p)
                ==> !LateResolution(tc, prev, cur, p)
  }

  /** Once the writes of a rerun are through, every file of the first run's parse set is up to date. */
  lemma {:induction false} WritesCatchUp(tc: Toolchain, prev: Source, cur: Source, s: Shards, p: Path)
    requires CollisionFree(tc)
    requires CanParse(tc, FullScan(tc, prev), cur)
    requires ConsumersSettled(tc, prev, cur)
    requires Mixed(tc, prev, cur, s)
    requires p in ToParse(tc, FullScan(tc, prev), cur) && p !in ToParse(tc, s, cur)
    ensures p in s && s[p] == FullFacts(tc, cur, p)
  {
    CleanBaseline(tc, prev, cur);
    RerunParses(tc, prev, cur, s);
    var s0 := FullScan(tc, prev);
    assert p in cur && p in s;
    if s[p] != FullFacts(tc, cur, p) {
      assert s[p] == FullFacts(tc, prev, p) && prev[p] == cur[p];
      assert p !in Changed(tc, s0, cur) && ImportsTouched(tc, prev, cur, p);
      assert !ImportsDeleted(tc, prev, cur, p) by {
        forall r | r in tc.parse(p, prev[p]).imports && r.target in prev ensures r.target in cur {
          ResolveMembers(tc.parse(p, prev[p]).imports, prev, r.target);
          assert r.target in s[p].imports;
        }
      }
      UnchangedFacts(tc, prev, cur, p);
    }
  }

  lemma {:induction false} MixedIsKept(tc: Toolchain, prev: Source, cur: Source, s: Shards, s': Shards)
    requires CollisionFree(tc)
    requires CanParse(tc, FullScan(tc, prev), cur)
    requires ConsumersSettled(tc, prev, cur)
    requires Mixed(tc, prev, cur, s) && InterruptedRun(tc, cur, s, s')
    ensures Mixed(tc, prev, cur, s')
  {
    var writes, changed: nat, deletes, k: nat :|
      IsPlan(tc, s, cur, writes, changed, deletes) && s' == AfterSteps(s, writes, deletes, k);
    if k <= |writes| {
      PrefixKeepsMixed(tc, prev, cur, s, writes, changed, deletes, writes[..k]);
    } else {
      PrefixKeepsMixed(tc, prev, cur, s, writes, changed, deletes, writes);
      var gone := deletes[..if k - |writes| <= |deletes| then k - |writes| else |deletes|];
      AllWritten(tc, prev, cur, s, writes, changed, deletes);
      assert Elements(gone) <= Elements(deletes);
      DeletesKeepMixed(tc, prev, cur, WriteAll(s, writes), Elements(gone));
    }
  }

  /** The first writes of a plan keep the state mixed. */
  lemma {:induction false} PrefixKeepsMixed(tc: Toolchain, prev: Source, cur: Source, s: Shards, writes: seq<Facts>, changed: nat,
                                            deletes: seq<Path>, done: seq<Facts>)
    requires CollisionFree(tc) && CanParse(tc, FullScan(tc, prev), cur)
    requires Mixed(tc, prev, cur, s) && IsPlan(tc, s, cur, writes, changed, deletes) && done <= writes
    ensures Mixed(tc, prev, cur, WriteAll(s, done))
  {
    RerunParses(tc, prev, cur, s);
    assert PathsOf(done) <= PathsOf(writes);
    WritesKeepMixed(tc, prev, cur, s, done);
  }

  /** After all writes of a plan every file of the first run's parse set is up to date, and what is
      still to be deleted is gone from the tree. */
  lemma {:induction false} AllWritten(tc: Toolchain, prev: Source, cur: Source, s: Shards, writes: seq<Facts>, changed: nat, deletes: seq<Path>)
    requires CollisionFree(tc) && CanParse(tc, FullScan(tc, prev), cur) && ConsumersSettled(tc, prev, cur)
    requires Mixed(tc, prev, cur, s) && IsPlan(tc, s, cur, writes, changed, deletes)
    ensures forall p :: p in ToParse(tc, FullScan(tc, prev), cur) && p in cur ==>
              p in WriteAll(s, writes) && WriteAll(s, writes)[p] == FullFacts(tc, cur, p)
    ensures Elements(deletes) !! cur.Keys
  {
    WriteAllIs(tc, s, cur, writes);
    forall p | p in ToParse(tc, FullScan(tc, prev), cur) && p in cur
      ensures p in WriteAll(s, writes) && WriteAll(s, writes)[p] == FullFacts(tc, cur, p)
    {
      if p !in PathsOf(writes) {
        WritesCatchUp(tc, prev, cur, s, p);
      }
    }
  }

  /** The first stopped run needs no condition for this. */
  lemma {:induction false} FirstRunIsMixed(tc: Toolchain, prev: Source, cur: Source, writes: seq<Facts>, changed: nat,
                                           deletes: seq<Path>, k: nat)
    requires CollisionFree(tc) && CanParse(tc, FullScan(tc, prev), cur)
    requires IsPlan(tc, FullScan(tc, prev), cur, writes, changed, deletes)
    ensures Mixed(tc, prev, cur, AfterSteps(FullScan(tc, prev), writes, deletes, k))
  {
    var s0 := FullScan(tc, prev);
    if k <= |writes| {
      PrefixKeepsMixed(tc, prev, cur, s0, writes, changed, deletes, writes[..k]);
    } else {
      PrefixKeepsMixed(tc, prev, cur, s0, writes, changed, deletes, writes);
      var gone := deletes[..if k - |writes| <= |deletes| then k - |writes| else |deletes|];
      WriteAllIs(tc, s0, cur, writes);
      assert Elements(gone) <= Elements(deletes);
      DeletesKeepMixed(tc, prev, cur, WriteAll(s0, writes), Elements(gone));
    }
  }

  lemma {:induction false} WritesKeepMixed(tc: Toolchain, prev: Source, cur: Source, s: Shards, done: seq<Facts>)
    requires Mixed(tc, prev, cur, s) && PathsOf(done) <= ToParse(tc, FullScan(tc, prev), cur)
    requires forall w :: w in done ==> w.path in cur && w == FullFacts(tc, cur, w.path)
    ensures Mixed(tc, prev, cur, WriteAll(s, done))
  {
    WriteAllIs(tc, s, cur, done);
  }

  lemma {:induction false} DeletesKeepMixed(tc: Toolchain, prev: Source, cur: Source, s: Shards, gone: set<Path>)
    requires Mixed(tc, prev, cur, s) && gone !! cur.Keys
    requires forall p :: p in ToParse(tc, FullScan(tc, prev), cur) && p in cur ==> p in s && s[p] == FullFacts(tc, cur, p)
    ensures Mixed(tc, prev, cur, s - gone)
  {
  }

  lemma {:induction false} RunsStayMixed(tc: Toolchain, prev: Source, cur: Source, states: seq<Shards>)
    requires CollisionFree(tc)
    requires CanParse(tc, FullScan(tc, prev), cur)
    requires ConsumersSettled(tc, prev, cur)
    requires InterruptedRuns(tc, cur, states) && states[0] == FullScan(tc, prev)
    ensures Mixed(tc, prev, cur, states[|states| - 1])
  {
    if |states| > 1 {
      var before := states[..|states| - 1];
      RunsStayMixed(tc, prev, cur, before);
      assert InterruptedRun(tc, cur, states[|states| - 2], states[|states| - 2 + 1]);
      MixedIsKept(tc, prev, cur, before[|before| - 1], states[|states| - 1]);
    }
  }

  /** From a mixed state an uninterrupted run ends where the first run would have ended. */
  lemma {:induction false} MixedConverges(tc: Toolchain, prev: Source, cur: Source, s: Shards)
    requires CollisionFree(tc)
    requires CanParse(tc, FullScan(tc, prev), cur)
    requires ConsumersSettled(tc, prev, cur)
    requires Mixed(tc, prev, cur, s)
    ensures CanParse(tc, s, cur)
    ensures RunResult(tc, s, cur) == RunResult(tc, FullScan(tc, prev), cur)
  {
    RerunParses(tc, prev, cur, s);
    RerunPaths(tc, prev, cur, s);
    var left, right := RunResult(tc, s, cur), RunResult(tc, FullScan(tc, prev), cur);
    assert right.Keys == cur.Keys by {
      IncrementalRefinesFull(tc, prev, cur);
    }
    forall p | p in cur ensures left[p] == right[p] {
      PathConverges(tc, prev, cur, s, p);
    }
  }

  lemma {:induction false} RerunPaths(tc: Toolchain, prev: Source, cur: Source, s: Shards)
    requires CanParse(tc, s, cur)
    requires Mixed(tc, prev, cur, s)
    requires Deleted(s, cur) == s.Keys - cur.Keys
    ensures RunResult(tc, s, cur).Keys == cur.Keys
  {
    forall p | p in cur ensures p in RunResult(tc, s, cur) {
      assert p in s || p in Changed(tc, s, cur);
    }
  }

  lemma {:induction false} PathConverges(tc: Toolchain, prev: Source, cur: Source, s: Shards, p: Path)
    requires CollisionFree(tc)
    requires CanParse(tc, FullScan(tc, prev), cur) && CanParse(tc, s, cur)
    requires ConsumersSettled(tc, prev, cur)
    requires Mixed(tc, prev, cur, s)
    requires p in cur && p in RunResult(tc, s, cur) && p in RunResult(tc, FullScan(tc, prev), cur)
    ensures RunResult(tc, s, cur)[p] == RunResult(tc, FullScan(tc, prev), cur)[p]
  {
    RerunParses(tc, prev, cur, s);
    var s0 := FullScan(tc, prev);
    if p in ToParse(tc, s0, cur) && p !in ToParse(tc, s, cur) {
      WritesCatchUp(tc, prev, cur, s, p);
    }
  }

  /** Every sequence of interrupted runs over the baseline of `prev`, followed by one complete run,
      ends like one uninterrupted run.  This speaks of shards alone: it supposes that the store lets
      every rerun start, as one without an identity check does. */
  ghost predicate CrashSafe(tc: Toolchain, prev: Source, cur: Source)
    requires CanParse(tc, FullScan(tc, prev), cur)
  {
    forall states :: InterruptedRuns(tc, cur, states) && states[0] == FullScan(tc, prev) ==>
      var s := states[|states| - 1];
      CanParse(tc, s, cur) && RunResult(tc, s, cur) == RunResult(tc, FullScan(tc, prev), cur)
  }

  function WritesFor(tc: Toolchain, cur: Source, paths: seq<Path>): (r: seq<Facts>)
    requires forall p :: p in paths ==> p in cur
    ensures |r| == |paths| && forall i :: 0 <= i < |r| ==> r[i] == FullFacts(tc, cur, paths[i])
  {
    seq(|paths|, i requires 0 <= i < |paths| => FullFacts(tc, cur, paths[i]))
  }

  lemma {:induction false} Enumerate(s: set<Path>) returns (r: seq<Path>)
    ensures Elements(r) == s && Distinct(r)
  {
    if s == {} {
      r := [];
    } else {
      var x :| x in s;
      var rest := Enumerate(s - {x});
      assert x !in Elements(rest);
      r := [x] + rest;
      assert Elements(r) == {x} + Elements(rest);
    }
  }

  lemma {:induction false} PlanExists(tc: Toolchain, s: Shards, cur: Source)
    returns (writes: seq<Facts>, changed: nat, deletes: seq<Path>)
    requires CanParse(tc, s, cur)
    ensures IsPlan(tc, s, cur, writes, changed, deletes)
  {
    var first := Enumerate(Changed(tc, s, cur));
    var second := Enumerate(ToParse(tc, s, cur) - Changed(tc, s, cur));
    deletes := Enumerate(Deleted(s, cur));
    forall p | p in first || p in second ensures p in ToParse(tc, s, cur) {
      assert p in Elements(first) || p in Elements(second);
    }
    var a, b := WritesFor(tc, cur, first), WritesFor(tc, cur, second);
    writes, changed := a + b, |first|;
    WritePaths(tc, cur, first);
    WritePaths(tc, cur, second);
    assert writes[..changed] == a;
    assert OncePerPath(a);
    assert PathsOf(writes) == PathsOf(a) + PathsOf(b);
  }

  lemma {:induction false} WritePaths(tc: Toolchain, cur: Source, paths: seq<Path>)
    requires forall p :: p in paths ==> p in cur
    ensures PathsOf(WritesFor(tc, cur, paths)) == Elements(paths)
  {
    var ws := WritesFor(tc, cur, paths);
    forall p | p in Elements(paths) ensures p in PathsOf(ws) {
      var i :| 0 <= i < |paths| && paths[i] == p;
      assert ws[i].path == p;
    }
  }

  /** A crash right after the changed files are written loses an unsettled consumer: the rerun sees
      nothing changed and reuses its old entry. */
  lemma {:induction false} UnsettledConsumerIsLost(tc: Toolchain, prev: Source, cur: Source, c: Path,
                                                   writes: seq<Facts>, changed: nat, deletes: seq<Path>)
    requires CollisionFree(tc)
    requires CanParse(tc, FullScan(tc, prev), cur)
    requires c in prev && c in cur && prev[c] == cur[c]
    requires ImportsTouched(tc, prev, cur, c) && !ImportsDeleted(tc, prev, cur, c) && LateResolution(tc, prev, cur, c)
    requires IsPlan(tc, FullScan(tc, prev), cur, writes, changed, deletes)
    ensures var s := AfterSteps(FullScan(tc, prev), writes, deletes, changed);
      && CanParse(tc, s, cur) && RunResult(tc, s, cur) != RunResult(tc, FullScan(tc, prev), cur)
  {
    var s0 := FullScan(tc, prev);
    var s := AfterSteps(s0, writes, deletes, changed);
    CleanBaseline(tc, prev, cur);
    WriteAllIs(tc, s0, cur, writes[..changed]);
    assert Mixed(tc, prev, cur, s);
    RerunParses(tc, prev, cur, s);
    assert Changed(tc, s, cur) == {};
    assert s[c] == FullFacts(tc, prev, c);
    if c in ToParse(tc, s, cur) {
      var d :| d in s[c].imports && d in Deleted(s, cur);
      ResolveMembers(tc.parse(c, prev[c]).imports, prev, d);
      assert false;
    }
    UnchangedFacts(tc, prev, cur, c);
    assert RunResult(tc, s, cur)[c] == FullFacts(tc, prev, c);
    assert RunResult(tc, s0, cur)[c] == FullFacts(tc, cur, c);
  }

  lemma {:induction false} SettledIsCrashSafe(tc: Toolchain, prev: Source, cur: Source)
    requires CollisionFree(tc)
    requires CanParse(tc, FullScan(tc, prev), cur)
    requires ConsumersSettled(tc, prev, cur)
    ensures CrashSafe(tc, prev, cur)
  {
    forall states | InterruptedRuns(tc, cur, states) && states[0] == FullScan(tc, prev)
      ensures CanParse(tc, states[|states| - 1], cur)
      ensures RunResult(tc, states[|states| - 1], cur) == RunResult(tc, FullScan(tc, prev), cur)
    {
      RunsStayMixed(tc, prev, cur, states);
      MixedConverges(tc, prev, cur, states[|states| - 1]);
    }
  }

  lemma {:induction false} UnsettledIsNotCrashSafe(tc: Toolchain, prev: Source, cur: Source, c: Path)
    requires CollisionFree(tc)
    requires CanParse(tc, FullScan(tc, prev), cur)
    requires c in prev && c in cur && prev[c] == cur[c]
    requires ImportsTouched(tc, prev, cur, c) && !ImportsDeleted(tc, prev, cur, c) && LateResolution(tc, prev, cur, c)
    ensures !CrashSafe(tc, prev, cur)
  {
    var s0 := FullScan(tc, prev);
    var writes, changed, deletes := PlanExists(tc, s0, cur);
    UnsettledConsumerIsLost(tc, prev, cur, c, writes, changed, deletes);
    var s := AfterSteps(s0, writes, deletes, changed);
    var states := [s0, s];
    assert InterruptedRuns(tc, cur, states) by {
      assert InterruptedRun(tc, cur, s0, s);
    }
    assert states[0] == s0 && states[|states| - 1] == s;
  }

  /** Crash convergence, and exactly when it holds. */
  lemma {:induction false} CrashConvergence(tc: Toolchain, prev: Source, cur: Source)
    requires CollisionFree(tc)
    requires CanParse(tc, FullScan(tc, prev), cur)
    ensures CrashSafe(tc, prev, cur) <==> ConsumersSettled(tc, prev, cur)
  {
    if ConsumersSettled(tc, prev, cur) {
      SettledIsCrashSafe(tc, prev, cur);
    } else {
      var c :| c in prev && c in cur && prev[c] == cur[c] && ImportsTouched(tc, prev, cur, c)
               && !ImportsDeleted(tc, prev, cur, c) && LateResolution(tc, prev, cur, c);
      UnsettledIsNotCrashSafe(tc, prev, cur, c);
    }
  }

  /** Writing before deleting is what the recovery rests on.  When files were only deleted, a crash
      after the deletes alone would hide their consumers from every later run. */
  lemma {:induction false} DeletesMustComeLast(tc: Toolchain, prev: Source, cur: Source, c: Path)
    requires CollisionFree(tc)
    requires CanParse(tc, FullScan(tc, prev), cur)
    requires Changed(tc, FullScan(tc, prev), cur) == {}
    requires c in prev && c in cur && ImportsDeleted(tc, prev, cur, c)
    ensures var s := FullScan(tc, prev) - Deleted(FullScan(tc, prev), cur);
      && ToParse(tc, s, cur) == {}
      && CanParse(tc, s, cur) && RunResult(tc, s, cur) != RunResult(tc, FullScan(tc, prev), cur)
  {
    CleanBaseline(tc, prev, cur);
    var s0 := FullScan(tc, prev);
    var s := s0 - Deleted(s0, cur);
    assert Changed(tc, s, cur) == {} && Deleted(s, cur) == {};
    var r :| r in tc.parse(c, prev[c]).imports && r.target in prev && r.target !in cur;
    ResolveMembers(tc.parse(c, prev[c]).imports, prev, r.target);
    ResolveMembers(tc.parse(c, cur[c]).imports, cur, r.target);
    assert RunResult(tc, s, cur)[c] == s0[c];
    assert c in ToParse(tc, s0, cur);
    assert RunResult(tc, s0, cur)[c] == FullFacts(tc, cur, c);
    assert r.target in s0[c].imports && r.target !in FullFacts(tc, cur, c).imports;
  }
}
