/** The scan transaction: preparing an incremental run, assembling entries and publishing them to a
    store that may stop at any publication step. */
module Scan {
  import opened Seqs
  import opened ScanIncremental

  /** Fields whose value depends on earlier runs or on the whole graph; they are not compared. */
  datatype Carried = Carried(inDegree: nat, alphaStruct: real, previousFingerprint: Option<Hash>)

  datatype Entry = Entry(facts: Facts, carried: Carried)

  datatype ImportRef = ImportRef(resolved: Option<Path>, reexport: bool)

  datatype Ast = Ast(path: Path, imports: seq<ImportRef>, metrics: Metrics)

  function FactsOf(m: map<Path, Entry>): Shards {
    map p | p in m :: m[p].facts
  }

  predicate SelfDescribing(m: map<Path, Entry>) {
    forall p :: p in m ==> m[p].facts.path == p
  }

  // ---------------------------------------------------------------------------------------------
  // Parsing one file
  // ---------------------------------------------------------------------------------------------

  function Reference(r: RawImport, src: Source): ImportRef {
    ImportRef(if r.target in src then Some(r.target) else None, r.reexport)
  }

  function References(raw: seq<RawImport>, src: Source): seq<ImportRef> {
    if raw == [] then [] else [Reference(raw[0], src)] + References(raw[1..], src)
  }

  /** Reading a file that is gone fails. */
  function ParseFile(tc: Toolchain, src: Source, p: Path): Option<Ast> {
    if p !in src then None
    else
      var parsed := tc.parse(p, src[p]);
      Some(Ast(p, References(parsed.imports, src), parsed.metrics))
  }

  function ResolvedPaths(refs: seq<ImportRef>): seq<Path> {
    if refs == [] then []
    else if refs[0].resolved.Some? then [refs[0].resolved.value] + ResolvedPaths(refs[1..])
    else ResolvedPaths(refs[1..])
  }

  /** The facts of a baseline entry projected from a syntax tree and a content hash. */
  function ProjectFacts(tc: Toolchain, ast: Ast, contentHash: Option<Hash>): Facts {
    Facts(ast.path, tc.classify(ast.path), contentHash, ResolvedPaths(ast.imports),
          ResolvedPaths(Filter(ast.imports, (r: ImportRef) => r.reexport)), |ast.imports|, ast.metrics)
  }

  lemma {:induction false} ReferencesResolve(raw: seq<RawImport>, src: Source)
    ensures |References(raw, src)| == |raw|
    ensures ResolvedPaths(References(raw, src)) == Resolve(raw, src)
    ensures Filter(References(raw, src), (r: ImportRef) => r.reexport) == References(Reexports(raw), src)
  {
    if raw != [] {
      ReferencesResolve(raw[1..], src);
      assert References(raw, src)[1..] == References(raw[1..], src);
    }
  }

  /** Projecting the parse of a current file gives the facts a full scan records for it. */
  lemma {:induction false} ProjectionIsFull(tc: Toolchain, src: Source, p: Path)
    requires p in src
    ensures ProjectFacts(tc, ParseFile(tc, src, p).value, Some(tc.hash(src[p]))) == FullFacts(tc, src, p)
  {
    var raw := tc.parse(p, src[p]).imports;
    ReferencesResolve(raw, src);
    ReferencesResolve(Reexports(raw), src);
  }

  /** The entry projected for a parsed file records it, item by item. */
  lemma {:induction false} ProjectionRecords(tc: Toolchain, src: Source, p: Path)
    requires p in src
    ensures Records(tc, src, p, ProjectFacts(tc, ParseFile(tc, src, p).value, Some(tc.hash(src[p]))))
  {
    ProjectionIsFull(tc, src, p);
    RecordsIff(tc, src, p, FullFacts(tc, src, p));
  }

  // ---------------------------------------------------------------------------------------------
  // Preparing an incremental run
  // ---------------------------------------------------------------------------------------------

  datatype Prepared =
    | NoHashes
    | ParseFailed
    | Ready(asts: seq<Ast>, reused: seq<Entry>, edges: map<Path, seq<Path>>, deleted: seq<Path>)

  function IncrementalChangeSet(tc: Toolchain, listing: seq<Path>, s: map<Path, Entry>, paths: seq<Path>, cur: Source)
    : (r: (seq<Path>, seq<Path>))
    requires Elements(listing) == s.Keys && Elements(paths) == cur.Keys
    ensures Elements(r.0) == Changed(tc, FactsOf(s), cur)
    ensures Elements(r.1) == Deleted(FactsOf(s), cur)
  {
    assert forall p :: p in paths ==> p in Elements(paths);
    assert forall p :: p in listing ==> p in Elements(listing);
    (Filter(paths, p => p in cur && (p !in s || s[p].facts.contentHash != Some(tc.hash(cur[p])))),
     Filter(listing, p => p in s && s[p].facts.contentHash.Some? && p !in cur))
  }

  ghost predicate Indexed(index: map<Path, seq<Path>>, d: Path, q: Path) {
    d in index && q in index[d]
  }

  /** Dependency path to the files importing it. */
  ghost predicate IsReverseIndex(index: map<Path, seq<Path>>, files: set<Path>, s: map<Path, Entry>)
    requires files <= s.Keys
  {
    forall d, q :: Indexed(index, d, q) <==> (q in files && d in s[q].facts.imports)
  }

  method IndexImports(before: map<Path, seq<Path>>, q: Path, imports: seq<Path>) returns (index: map<Path, seq<Path>>)
    ensures forall d, f :: Indexed(index, d, f) <==> Indexed(before, d, f) || (f == q && d in imports)
  {
    index := before;
    for j := 0 to |imports|
      invariant forall d, f :: Indexed(index, d, f) <==> Indexed(before, d, f) || (f == q && d in imports[..j])
    {
      assert imports[..j + 1] == imports[..j] + [imports[j]];
      var known := if imports[j] in index then index[imports[j]] else [];
      index := index[imports[j] := known + [q]];
    }
    assert imports[..|imports|] == imports;
  }

  method BuildReverseIndex(listing: seq<Path>, s: map<Path, Entry>) returns (index: map<Path, seq<Path>>)
    requires Elements(listing) == s.Keys
    ensures IsReverseIndex(index, s.Keys, s)
  {
    index := map[];
    for i := 0 to |listing|
      invariant Elements(listing[..i]) <= s.Keys
      invariant IsReverseIndex(index, Elements(listing[..i]), s)
    {
      assert listing[i] in Elements(listing);
      assert listing[..i + 1] == listing[..i] + [listing[i]];
      assert Elements(listing[..i + 1]) == Elements(listing[..i]) + {listing[i]};
      index := IndexImports(index, listing[i], s[listing[i]].facts.imports);
    }
    assert listing[..|listing|] == listing;
  }

  function FlatConsumers(targets: seq<Path>, index: map<Path, seq<Path>>): seq<Path> {
    if targets == [] then []
    else (if targets[0] in index then index[targets[0]] else []) + FlatConsumers(targets[1..], index)
  }

  lemma {:induction false} FlatConsumersMember(targets: seq<Path>, index: map<Path, seq<Path>>, q: Path)
    ensures q in FlatConsumers(targets, index) <==> exists d :: d in targets && Indexed(index, d, q)
  {
    if targets != [] {
      FlatConsumersMember(targets[1..], index, q);
      assert targets == [targets[0]] + targets[1..];
      if q in FlatConsumers(targets, index) && !Indexed(index, targets[0], q) {
        var d :| d in targets[1..] && Indexed(index, d, q);
        assert d in targets;
      }
    }
  }

  /** What a prepared run contains, for the baseline `s` and the tree `cur`. */
  ghost predicate IsReady(tc: Toolchain, s: map<Path, Entry>, cur: Source, r: Prepared)
    requires r.Ready? && CanParse(tc, FactsOf(s), cur)
  {
    var parse := ToParse(tc, FactsOf(s), cur);
    && (forall a :: a in r.asts ==> a.path in cur && ParseFile(tc, cur, a.path) == Some(a))
    && AstPaths(r.asts) == parse
    && ChangedFirst(r.asts, Changed(tc, FactsOf(s), cur))
    && (forall e :: e in r.reused ==> e.facts.path in s && s[e.facts.path] == e)
    && EntryPaths(r.reused) == s.Keys - Deleted(FactsOf(s), cur) - parse
    && Elements(r.deleted) == Deleted(FactsOf(s), cur)
    && r.edges == ImportEdges(RunResult(tc, FactsOf(s), cur))
  }

  /** The changed files come first, each once. */
  ghost predicate ChangedFirst(asts: seq<Ast>, changed: set<Path>) {
    exists n: nat :: n <= |asts| && AstPaths(asts[..n]) == changed && OnceParsed(asts[..n])
  }

  predicate OnceParsed(asts: seq<Ast>) {
    forall i, j :: 0 <= i < j < |asts| ==> asts[i].path != asts[j].path
  }

  function AstPaths(asts: seq<Ast>): set<Path> {
    set a | a in asts :: a.path
  }

  function EntryPaths(entries: seq<Entry>): set<Path> {
    set e | e in entries :: e.facts.path
  }

  function ImportEdges(s: Shards): map<Path, seq<Path>> {
    map p | p in s :: s[p].imports
  }

  /** The entries of the listed paths outside `skip`. */
  function Reuse(listing: seq<Path>, s: map<Path, Entry>, skip: set<Path>): (r: seq<Entry>)
    requires forall p :: p in listing ==> p in s
    ensures forall e :: e in r <==> exists p :: p in listing && p !in skip && e == s[p]
  {
    if listing == [] then []
    else (if listing[0] in skip then [] else [s[listing[0]]]) + Reuse(listing[1..], s, skip)
  }

  lemma {:induction false} ReusePaths(listing: seq<Path>, s: map<Path, Entry>, skip: set<Path>)
    requires Elements(listing) == s.Keys && SelfDescribing(s)
    requires forall p :: p in listing ==> p in s
    ensures EntryPaths(Reuse(listing, s, skip)) == s.Keys - skip
    ensures forall e :: e in Reuse(listing, s, skip) ==> e.facts.path in s && s[e.facts.path] == e
  {
    var r := Reuse(listing, s, skip);
    forall p | p in s.Keys - skip ensures p in EntryPaths(r) {
      assert p in Elements(listing);
      assert s[p] in r;
    }
  }

  lemma {:induction false} AstPathsOf(tc: Toolchain, cur: Source, paths: seq<Path>, asts: seq<Ast>)
    requires |asts| == |paths| && forall j :: 0 <= j < |asts| ==> ParseFile(tc, cur, paths[j]) == Some(asts[j])
    ensures AstPaths(asts) == Elements(paths)
  {
    forall p | p in Elements(paths) ensures p in AstPaths(asts) {
      var j :| 0 <= j < |paths| && paths[j] == p;
      assert asts[j].path == p;
    }
  }

  lemma {:induction false} FlatConsumersAre(s: map<Path, Entry>, targets: seq<Path>, index: map<Path, seq<Path>>)
    requires IsReverseIndex(index, s.Keys, s)
    ensures Elements(FlatConsumers(targets, index)) == Consumers(FactsOf(s), Elements(targets))
  {
    var more := FlatConsumers(targets, index);
    forall q ensures q in more <==> exists d :: d in targets && Indexed(index, d, q) {
      FlatConsumersMember(targets, index, q);
    }
    forall q | q in more ensures q in Consumers(FactsOf(s), Elements(targets)) {
      var d :| d in targets && Indexed(index, d, q);
      assert d in FactsOf(s)[q].imports && d in Elements(targets);
    }
    forall q | q in Consumers(FactsOf(s), Elements(targets)) ensures q in more {
      var d :| d in FactsOf(s)[q].imports && d in Elements(targets);
      assert Indexed(index, d, q);
    }
  }

  /** The parse list as the run computes it is the parse set, changed files first. */
  lemma {:induction false} ParseListIs(tc: Toolchain, s: map<Path, Entry>, cur: Source, changed: seq<Path>, deleted: seq<Path>,
                                       index: map<Path, seq<Path>>)
    requires IsReverseIndex(index, s.Keys, s)
    requires Elements(changed) == Changed(tc, FactsOf(s), cur) && Distinct(changed)
    requires Elements(deleted) == Deleted(FactsOf(s), cur)
    ensures var l := Dedup(changed + FlatConsumers(changed + deleted, index));
      Elements(l) == ToParse(tc, FactsOf(s), cur) && |changed| <= |l| && l[..|changed|] == changed
  {
    var more := FlatConsumers(changed + deleted, index);
    DedupPrefix(changed, more);
    FlatConsumersAre(s, changed + deleted, index);
    assert Elements(changed + deleted) == Elements(changed) + Elements(deleted);
    assert Elements(changed + more) == Elements(changed) + Elements(more);
    assert Elements(Dedup(changed + more)) == Elements(changed + more);
  }

  /** With nothing changed the run result is the baseline itself. */
  lemma {:induction false} NothingChanged(tc: Toolchain, s: map<Path, Entry>, cur: Source)
    requires Changed(tc, FactsOf(s), cur) == {} && Deleted(FactsOf(s), cur) == {}
    ensures ToParse(tc, FactsOf(s), cur) == {} && CanParse(tc, FactsOf(s), cur)
    ensures RunResult(tc, FactsOf(s), cur) == FactsOf(s)
  {
  }

  method PrepareIncrementalScan(tc: Toolchain, listing: seq<Path>, s: map<Path, Entry>, paths: seq<Path>, cur: Source)
    returns (r: Prepared)
    requires Elements(listing) == s.Keys && SelfDescribing(s)
    requires Elements(paths) == cur.Keys && Distinct(paths)
    ensures r.NoHashes? <==> forall p :: p in s ==> s[p].facts.contentHash.None?
    ensures r.ParseFailed? <==> !r.NoHashes? && !CanParse(tc, FactsOf(s), cur)
    ensures r.Ready? ==> CanParse(tc, FactsOf(s), cur) && IsReady(tc, s, cur, r)
  {
    assert forall p :: p in listing <==> p in s by {
      assert forall p :: p in listing <==> p in Elements(listing);
    }
    if forall p | p in listing :: s[p].facts.contentHash.None? {
      return NoHashes;
    }
    var (changed, deleted) := IncrementalChangeSet(tc, listing, s, paths, cur);
    FilterDistinct(paths, p => p in cur && (p !in s || s[p].facts.contentHash != Some(tc.hash(cur[p]))));
    if changed == [] && deleted == [] {
      r := PrepareUnchanged(tc, listing, s, cur);
    } else {
      r := PrepareChanged(tc, listing, s, cur, changed, deleted);
    }
  }

  /** Every entry is reused as it is. */
  method PrepareUnchanged(tc: Toolchain, listing: seq<Path>, s: map<Path, Entry>, cur: Source) returns (r: Prepared)
    requires Elements(listing) == s.Keys && SelfDescribing(s)
    requires forall p :: p in listing ==> p in s
    requires Changed(tc, FactsOf(s), cur) == {} && Deleted(FactsOf(s), cur) == {}
    ensures r.Ready? && CanParse(tc, FactsOf(s), cur) && IsReady(tc, s, cur, r)
  {
    NothingChanged(tc, s, cur);
    ReusePaths(listing, s, {});
    r := Ready([], Reuse(listing, s, {}), ImportEdges(FactsOf(s)), []);
    assert AstPaths(r.asts[..0]) == {} && OnceParsed(r.asts[..0]);
  }

  method PrepareChanged(tc: Toolchain, listing: seq<Path>, s: map<Path, Entry>, cur: Source, changed: seq<Path>, deleted: seq<Path>)
    returns (r: Prepared)
    requires Elements(listing) == s.Keys && SelfDescribing(s)
    requires forall p :: p in listing ==> p in s
    requires Elements(changed) == Changed(tc, FactsOf(s), cur) && Distinct(changed)
    requires Elements(deleted) == Deleted(FactsOf(s), cur)
    ensures !r.NoHashes?
    ensures r.ParseFailed? <==> !CanParse(tc, FactsOf(s), cur)
    ensures r.Ready? ==> CanParse(tc, FactsOf(s), cur) && IsReady(tc, s, cur, r)
  {
    var toParse := ParseList(tc, listing, s, cur, changed, deleted);
    var parsed := ParseAll(tc, cur, toParse);
    if parsed.None? {
      return ParseFailed;
    }
    var asts := parsed.value;
    ParsedAre(tc, s, cur, changed, toParse, asts);
    var skip := Elements(deleted) + Elements(toParse);
    var reused := Reuse(listing, s, skip);
    ReusePaths(listing, s, skip);
    var edges := JoinEdges(tc, s, cur, reused, asts);
    r := Ready(asts, reused, edges, deleted);
  }

  /** The changed files and, through the reverse index, the consumers of changed and deleted ones. */
  method ParseList(tc: Toolchain, listing: seq<Path>, s: map<Path, Entry>, cur: Source, changed: seq<Path>, deleted: seq<Path>)
    returns (toParse: seq<Path>)
    requires Elements(listing) == s.Keys
    requires Elements(changed) == Changed(tc, FactsOf(s), cur) && Distinct(changed)
    requires Elements(deleted) == Deleted(FactsOf(s), cur)
    ensures Elements(toParse) == ToParse(tc, FactsOf(s), cur)
    ensures |changed| <= |toParse| && toParse[..|changed|] == changed
  {
    var index := BuildReverseIndex(listing, s);
    toParse := Dedup(changed + FlatConsumers(changed + deleted, index));
    ParseListIs(tc, s, cur, changed, deleted, index);
  }

  lemma {:induction false} ParsedAre(tc: Toolchain, s: map<Path, Entry>, cur: Source, changed: seq<Path>, toParse: seq<Path>,
                                     asts: seq<Ast>)
    requires Elements(changed) == Changed(tc, FactsOf(s), cur) && Distinct(changed)
    requires Elements(toParse) == ToParse(tc, FactsOf(s), cur) && Elements(toParse) <= cur.Keys
    requires |changed| <= |toParse| && toParse[..|changed|] == changed
    requires |asts| == |toParse| && forall j :: 0 <= j < |asts| ==> ParseFile(tc, cur, toParse[j]) == Some(asts[j])
    ensures forall a :: a in asts ==> a.path in cur && ParseFile(tc, cur, a.path) == Some(a)
    ensures AstPaths(asts) == ToParse(tc, FactsOf(s), cur)
    ensures ChangedFirst(asts, Changed(tc, FactsOf(s), cur))
  {
    AstPathsOf(tc, cur, toParse, asts);
    AstPathsOf(tc, cur, changed, asts[..|changed|]);
    assert OnceParsed(asts[..|changed|]);
    forall j | 0 <= j < |asts| ensures asts[j].path in cur && ParseFile(tc, cur, asts[j].path) == Some(asts[j]) {
      assert toParse[j] in Elements(toParse);
    }
  }

  /** Edges of the reused files, then those of the parsed ones. */
  method JoinEdges(tc: Toolchain, s: map<Path, Entry>, cur: Source, reused: seq<Entry>, asts: seq<Ast>)
    returns (edges: map<Path, seq<Path>>)
    requires CanParse(tc, FactsOf(s), cur)
    requires forall a :: a in asts ==> a.path in cur && ParseFile(tc, cur, a.path) == Some(a)
    requires AstPaths(asts) == ToParse(tc, FactsOf(s), cur)
    requires forall e :: e in reused ==> e.facts.path in s && s[e.facts.path] == e
    requires EntryPaths(reused) == s.Keys - Deleted(FactsOf(s), cur) - AstPaths(asts)
    ensures edges == ImportEdges(RunResult(tc, FactsOf(s), cur))
  {
    edges := ReusedEdges(reused);
    edges := ParsedEdges(tc, cur, edges, asts);
    EdgesAre(tc, s, cur, reused, asts, edges);
  }

  method ParseAll(tc: Toolchain, cur: Source, paths: seq<Path>) returns (r: Option<seq<Ast>>)
    ensures r.None? <==> !(Elements(paths) <= cur.Keys)
    ensures r.Some? ==> |r.value| == |paths|
    ensures r.Some? ==> forall j :: 0 <= j < |paths| ==> ParseFile(tc, cur, paths[j]) == Some(r.value[j])
  {
    var asts := [];
    for i := 0 to |paths|
      invariant |asts| == i
      invariant forall j :: 0 <= j < i ==> paths[j] in cur && ParseFile(tc, cur, paths[j]) == Some(asts[j])
    {
      var ast := ParseFile(tc, cur, paths[i]);
      if ast.None? {
        assert paths[i] in Elements(paths) && paths[i] !in cur;
        return None;
      }
      asts := asts + [ast.value];
    }
    r := Some(asts);
  }

  /** Reused files keep their baseline imports. */
  method ReusedEdges(reused: seq<Entry>) returns (edges: map<Path, seq<Path>>)
    requires forall e, f :: e in reused && f in reused && e.facts.path == f.facts.path ==> e == f
    ensures edges.Keys == EntryPaths(reused)
    ensures forall e :: e in reused ==> e.facts.path in edges && edges[e.facts.path] == e.facts.imports
  {
    edges := map[];
    for i := 0 to |reused|
      invariant edges.Keys == EntryPaths(reused[..i])
      invariant forall e :: e in reused[..i] ==> e.facts.path in edges && edges[e.facts.path] == e.facts.imports
    {
      assert reused[..i + 1] == reused[..i] + [reused[i]];
      assert EntryPaths(reused[..i + 1]) == EntryPaths(reused[..i]) + {reused[i].facts.path};
      edges := edges[reused[i].facts.path := reused[i].facts.imports];
    }
    assert reused[..|reused|] == reused;
  }

  /** Parsed files contribute the imports of their new syntax tree. */
  method ParsedEdges(tc: Toolchain, cur: Source, before: map<Path, seq<Path>>, asts: seq<Ast>)
    returns (edges: map<Path, seq<Path>>)
    requires forall a :: a in asts ==> a.path in cur && ParseFile(tc, cur, a.path) == Some(a)
    ensures edges.Keys == before.Keys + AstPaths(asts)
    ensures forall p :: p in AstPaths(asts) ==> p in edges && p in cur && edges[p] == FullFacts(tc, cur, p).imports
    ensures forall p :: p in before && p !in AstPaths(asts) ==> p in edges && edges[p] == before[p]
  {
    edges := before;
    for i := 0 to |asts|
      invariant edges.Keys == before.Keys + AstPaths(asts[..i])
      invariant forall p :: p in edges ==>
        if p in AstPaths(asts[..i]) then p in cur && edges[p] == FullFacts(tc, cur, p).imports
        else p in before && edges[p] == before[p]
    {
      assert asts[..i + 1] == asts[..i] + [asts[i]];
      assert AstPaths(asts[..i + 1]) == AstPaths(asts[..i]) + {asts[i].path};
      ProjectionIsFull(tc, cur, asts[i].path);
      edges := edges[asts[i].path := ResolvedPaths(asts[i].imports)];
    }
    assert asts[..|asts|] == asts;
  }

  /** The edge map of a prepared run is the import relation of the run's result. */
  lemma {:induction false} EdgesAre(tc: Toolchain, s: map<Path, Entry>, cur: Source, reused: seq<Entry>, asts: seq<Ast>,
                                    edges: map<Path, seq<Path>>)
    requires CanParse(tc, FactsOf(s), cur)
    requires AstPaths(asts) == ToParse(tc, FactsOf(s), cur)
    requires EntryPaths(reused) == s.Keys - Deleted(FactsOf(s), cur) - AstPaths(asts)
    requires forall e :: e in reused ==> e.facts.path in s && s[e.facts.path] == e
    requires edges.Keys == EntryPaths(reused) + AstPaths(asts)
    requires forall p :: p in AstPaths(asts) ==> p in cur && edges[p] == FullFacts(tc, cur, p).imports
    requires forall e :: e in reused && e.facts.path !in AstPaths(asts) ==> edges[e.facts.path] == e.facts.imports
    ensures edges == ImportEdges(RunResult(tc, FactsOf(s), cur))
  {
    var result := RunResult(tc, FactsOf(s), cur);
    forall p ensures p in edges <==> p in result {
      if p in Changed(tc, FactsOf(s), cur) {
        assert p in AstPaths(asts);
      }
      if p in AstPaths(asts) && p in s {
        assert p in cur;
      }
    }
    forall p | p in edges ensures edges[p] == result[p].imports {
      if p !in AstPaths(asts) {
        var e :| e in reused && e.facts.path == p;
      }
    }
  }

  // ---------------------------------------------------------------------------------------------
  // Assembling entries
  // ---------------------------------------------------------------------------------------------

  function EntriesOf(tc: Toolchain, cur: Source, asts: seq<Ast>, carried: Path -> Carried): (r: seq<Entry>)
    requires forall a :: a in asts ==> a.path in cur
    ensures |r| == |asts|
  {
    seq(|asts|, i requires 0 <= i < |asts| =>
      Entry(ProjectFacts(tc, asts[i], Some(tc.hash(cur[asts[i].path]))), carried(asts[i].path)))
  }

  /** The branch input of one production entry.  A reused entry without function facts counts 0,
      a parsed one falls back to the weighted total of the whole file. */
  function BranchInput(f: Facts, reused: bool): nat {
    if f.metrics.maxFuncBranch.Some? then f.metrics.maxFuncBranch.value
    else if reused then 0 else f.metrics.weightedBranchTotal
  }

  function BranchInputs(files: seq<Facts>, reused: bool): seq<int> {
    if files == [] then []
    else (if files[0].kind == Production then [BranchInput(files[0], reused)] else []) + BranchInputs(files[1..], reused)
  }

  function FactsIn(entries: seq<Entry>): (r: seq<Facts>)
    ensures |r| == |entries| && forall i :: 0 <= i < |r| ==> r[i] == entries[i].facts
  {
    if entries == [] then [] else [entries[0].facts] + FactsIn(entries[1..])
  }

  /** Reused entries are taken over as they are, parsed files are projected anew. */
  method ComputeEntries(tc: Toolchain, cur: Source, asts: seq<Ast>, reused: seq<Entry>, carried: Path -> Carried)
    returns (entries: seq<Entry>, branch: seq<int>)
    requires forall a :: a in asts ==> a.path in cur && ParseFile(tc, cur, a.path) == Some(a)
    ensures entries == reused + EntriesOf(tc, cur, asts, carried)
    ensures forall i :: 0 <= i < |asts| ==> Records(tc, cur, asts[i].path, entries[|reused| + i].facts)
    ensures branch == BranchInputs(FactsIn(reused), true) + BranchInputs(FactsList(tc, cur, asts), false)
  {
    var kept := KeepReused(reused);
    var projected, inputs := ProjectParsed(tc, cur, asts, carried);
    entries, branch := reused + projected, kept + inputs;
    forall i | 0 <= i < |asts| ensures Records(tc, cur, asts[i].path, entries[|reused| + i].facts) {
      ProjectionRecords(tc, cur, asts[i].path);
    }
  }

  method KeepReused(reused: seq<Entry>) returns (branch: seq<int>)
    ensures branch == BranchInputs(FactsIn(reused), true)
  {
    branch := [];
    ghost var kept := FactsIn(reused);
    for i := 0 to |reused|
      invariant branch == BranchInputs(kept[..i], true)
    {
      BranchInputsStep(kept, i, true);
      if reused[i].facts.kind == Production {
        branch := branch + [BranchInput(reused[i].facts, true)];
      }
    }
    assert kept[..|reused|] == kept;
  }

  /** The entry of one parsed file. */
  method ProjectEntry(tc: Toolchain, cur: Source, ast: Ast, carried: Path -> Carried) returns (entry: Entry)
    requires ast.path in cur && ParseFile(tc, cur, ast.path) == Some(ast)
    ensures entry == Entry(ProjectFacts(tc, ast, Some(tc.hash(cur[ast.path]))), carried(ast.path))
    ensures entry.facts == FullFacts(tc, cur, ast.path)
  {
    ProjectionIsFull(tc, cur, ast.path);
    entry := Entry(ProjectFacts(tc, ast, Some(tc.hash(cur[ast.path]))), carried(ast.path));
  }

  method ProjectParsed(tc: Toolchain, cur: Source, asts: seq<Ast>, carried: Path -> Carried)
    returns (entries: seq<Entry>, branch: seq<int>)
    requires forall a :: a in asts ==> a.path in cur && ParseFile(tc, cur, a.path) == Some(a)
    ensures entries == EntriesOf(tc, cur, asts, carried) && branch == BranchInputs(FactsList(tc, cur, asts), false)
  {
    entries, branch := [], [];
    ghost var parsed := FactsList(tc, cur, asts);
    ghost var all := EntriesOf(tc, cur, asts, carried);
    for i := 0 to |asts|
      invariant entries == all[..i]
      invariant branch == BranchInputs(parsed[..i], false)
    {
      var entry := ProjectEntry(tc, cur, asts[i], carried);
      assert entry == all[i] && entry.facts == parsed[i];
      BranchInputsStep(parsed, i, false);
      assert all[..i + 1] == all[..i] + [all[i]];
      entries := entries + [entry];
      if entry.facts.kind == Production {
        branch := branch + [BranchInput(entry.facts, false)];
      }
    }
    assert all[..|asts|] == all && parsed[..|asts|] == parsed;
  }

  function FactsList(tc: Toolchain, cur: Source, asts: seq<Ast>): (r: seq<Facts>)
    requires forall a :: a in asts ==> a.path in cur
    ensures |r| == |asts|
  {
    seq(|asts|, i requires 0 <= i < |asts| => FullFacts(tc, cur, asts[i].path))
  }

  lemma {:induction false} BranchInputsAppend(a: seq<Facts>, b: seq<Facts>, reused: bool)
    ensures BranchInputs(a + b, reused) == BranchInputs(a, reused) + BranchInputs(b, reused)
  {
    if a == [] {
      assert a + b == b;
    } else {
      var head := if a[0].kind == Production then [BranchInput(a[0], reused)] else [];
      assert BranchInputs(a + b, reused) == head + BranchInputs(a[1..] + b, reused) by {
        assert (a + b)[1..] == a[1..] + b;
      }
      BranchInputsAppend(a[1..], b, reused);
    }
  }

  lemma {:induction false} BranchInputsStep(files: seq<Facts>, i: nat, reused: bool)
    requires i < |files|
    ensures BranchInputs(files[..i + 1], reused)
            == BranchInputs(files[..i], reused)
               + if files[i].kind == Production then [BranchInput(files[i], reused)] else []
  {
    assert files[..i + 1] == files[..i] + [files[i]];
    BranchInputsAppend(files[..i], [files[i]], reused);
    assert BranchInputs([files[i]][1..], reused) == [];
  }

  /** One input for every production file, in order: its largest function, and if that is not known nothing
      for a reused entry and all its branches for a parsed one. */
  lemma {:induction false} BranchInputsAre(files: seq<Facts>, reused: bool)
    ensures AreInputs(BranchInputs(files, reused), Filter(files, (f: Facts) => f.kind == Production), reused)
  {
    if files != [] {
      BranchInputsAre(files[1..], reused);
      var production, rest := Filter(files[1..], (f: Facts) => f.kind == Production), BranchInputs(files[1..], reused);
      if files[0].kind == Production {
        InputFirst(files[0], production, rest, reused);
      } else {
        assert [] + rest == rest;
      }
    }
  }

  lemma {:induction false} InputFirst(f: Facts, production: seq<Facts>, inputs: seq<int>, reused: bool)
    requires AreInputs(inputs, production, reused)
    ensures AreInputs([BranchInput(f, reused)] + inputs, [f] + production, reused)
  {
  }

  ghost predicate AreInputs(inputs: seq<int>, production: seq<Facts>, reused: bool) {
    |inputs| == |production|
    && forall i :: 0 <= i < |production| ==>
         inputs[i] == match production[i].metrics.maxFuncBranch
                      case Some(largest) => largest
                      case None => if reused then 0 else production[i].metrics.weightedBranchTotal
  }

  lemma {:induction false} SumOfMultiset(a: seq<int>, b: seq<int>)
    requires multiset(a) == multiset(b)
    ensures Sum(a) == Sum(b)
  {
    if a == [] {
      assert |multiset(b)| == 0;
    } else {
      assert a == [a[0]] + a[1..];
      assert a[0] in multiset(b);
      var j: nat :| j < |b| && b[j] == a[0];
      var rest := b[..j] + b[j + 1..];
      var tail := a[1..];
      assert multiset(tail) == multiset(rest) by {
        MultisetWithout(b, j);
        MultisetWithout(a, 0);
        assert a[..0] + tail == tail;
        assert multiset(rest) == multiset(b) - multiset{b[j]};
        assert multiset(tail) == multiset(a) - multiset{a[0]};
      }
      SumOfMultiset(a[1..], rest);
      SumWithout(b, j);
    }
  }

  lemma {:induction false} MultisetWithout(b: seq<int>, j: nat)
    requires j < |b|
    ensures multiset(b) == multiset(b[..j] + b[j + 1..]) + multiset{b[j]}
  {
    assert b == b[..j] + ([b[j]] + b[j + 1..]);
  }

  lemma {:induction false} SumWithout(b: seq<int>, j: nat)
    requires j < |b|
    ensures Sum(b) == b[j] + Sum(b[..j] + b[j + 1..])
  {
    assert b == b[..j] + ([b[j]] + b[j + 1..]);
    SumAppend(b[..j], [b[j]] + b[j + 1..]);
    SumAppend(b[..j], b[j + 1..]);
    assert ([b[j]] + b[j + 1..])[1..] == b[j + 1..];
  }

  /** A baseline entry of a current file as it was recorded for this text.  Entries of older versions
      may lack the largest function. */
  ghost predicate StandsFor(tc: Toolchain, cur: Source, f: Facts) {
    && f.path in cur
    && f.kind == FullFacts(tc, cur, f.path).kind
    && (f.metrics.maxFuncBranch.Some? ==> f.metrics.maxFuncBranch == FullFacts(tc, cur, f.path).metrics.maxFuncBranch)
  }

  ghost predicate AllStandFor(tc: Toolchain, cur: Source, files: seq<Facts>) {
    forall i :: 0 <= i < |files| ==> StandsFor(tc, cur, files[i])
  }

  /** What a full scan of the tree records for the same files. */
  function Afresh(tc: Toolchain, cur: Source, files: seq<Facts>): (r: seq<Facts>)
    requires forall i :: 0 <= i < |files| ==> files[i].path in cur
    ensures |r| == |files| && forall i :: 0 <= i < |r| ==> r[i] == FullFacts(tc, cur, files[i].path)
  {
    if files == [] then [] else [FullFacts(tc, cur, files[0].path)] + Afresh(tc, cur, files[1..])
  }

  /** The entry has its largest function, or the file counts nothing. */
  ghost predicate BranchKnown(tc: Toolchain, cur: Source, f: Facts) {
    f.kind == Production && f.path in cur ==>
      f.metrics.maxFuncBranch.Some? || BranchInput(FullFacts(tc, cur, f.path), false) == 0
  }

  ghost predicate AllBranchesKnown(tc: Toolchain, cur: Source, files: seq<Facts>) {
    forall i :: 0 <= i < |files| ==> BranchKnown(tc, cur, files[i])
  }

  lemma {:induction false} BranchInputsCompare(tc: Toolchain, cur: Source, files: seq<Facts>)
    requires AllStandFor(tc, cur, files)
    ensures AllBranchesKnown(tc, cur, files) ==> BranchInputs(files, true) == BranchInputs(Afresh(tc, cur, files), false)
    ensures Sum(BranchInputs(files, true)) <= Sum(BranchInputs(Afresh(tc, cur, files), false))
    ensures Sum(BranchInputs(files, true)) == Sum(BranchInputs(Afresh(tc, cur, files), false)) ==> AllBranchesKnown(tc, cur, files)
  {
    if files != [] {
      var f, anew := files[0], FullFacts(tc, cur, files[0].path);
      BranchInputsCompare(tc, cur, files[1..]);
      assert StandsFor(tc, cur, f);
      assert AllBranchesKnown(tc, cur, files) <==> BranchKnown(tc, cur, f) && AllBranchesKnown(tc, cur, files[1..]) by {
        assert forall i :: 0 < i < |files| ==> files[i] == files[1..][i - 1];
      }
      assert Afresh(tc, cur, files)[1..] == Afresh(tc, cur, files[1..]);
      var head := if f.kind == Production then [BranchInput(f, true)] else [];
      var head' := if anew.kind == Production then [BranchInput(anew, false)] else [];
      SumAppend(head, BranchInputs(files[1..], true));
      SumAppend(head', BranchInputs(Afresh(tc, cur, files[1..]), false));
    }
  }

  /** The P95 population of an incremental run equals the one a full scan measures for the same files
      exactly when every reused production entry has its largest function, or a fresh parse counts
      nothing for it. */
  lemma {:induction false} BranchPopulationAgrees(tc: Toolchain, cur: Source, reused: seq<Facts>, parsed: seq<Facts>)
    requires AllStandFor(tc, cur, reused)
    ensures multiset(BranchInputs(reused, true) + BranchInputs(parsed, false))
            == multiset(BranchInputs(Afresh(tc, cur, reused) + parsed, false))
            <==> AllBranchesKnown(tc, cur, reused)
  {
    BranchInputsAppend(Afresh(tc, cur, reused), parsed, false);
    BranchInputsCompare(tc, cur, reused);
    var a, b, c := BranchInputs(reused, true), BranchInputs(Afresh(tc, cur, reused), false), BranchInputs(parsed, false);
    if multiset(a + c) == multiset(b + c) {
      SumOfMultiset(a + c, b + c);
      SumAppend(a, c);
      SumAppend(b, c);
    }
  }

  // ---------------------------------------------------------------------------------------------
  // The dependency graph
  // ---------------------------------------------------------------------------------------------

  /** The graph a full scan builds: production files and the production files they import. */
  function ProductionGraph(s: Shards): map<Path, seq<Path>> {
    map p | p in s && s[p].kind == Production :: Filter(s[p].imports, q => q in s && s[q].kind == Production)
  }

  /** The graph of a full scan of the tree, without naming what a scan records: an edge for every import
      that leads from a production file to a production file of the tree. */
  lemma {:induction false} ProductionEdgeIff(tc: Toolchain, cur: Source, p: Path, q: Path)
    ensures var graph := ProductionGraph(FullScan(tc, cur));
      && (p in graph <==> p in cur && tc.classify(p) == Production)
      && (p in graph && q in graph[p]
          <==> && p in cur && tc.classify(p) == Production && q in cur && tc.classify(q) == Production
               && exists r :: r in tc.parse(p, cur[p]).imports && r.target == q)
  {
    if p in cur {
      ResolveMembers(tc.parse(p, cur[p]).imports, cur, q);
    }
  }

  /** The graph an incremental run builds keeps test files, so the two coincide exactly on
      all-production projects. */
  lemma {:induction false} GraphsAgreeIff(tc: Toolchain, cur: Source)
    ensures ImportEdges(FullScan(tc, cur)) == ProductionGraph(FullScan(tc, cur))
            <==> forall p :: p in cur ==> tc.classify(p) == Production
  {
    var s := FullScan(tc, cur);
    if forall p :: p in cur ==> tc.classify(p) == Production {
      forall p | p in s ensures ImportEdges(s)[p] == ProductionGraph(s)[p] {
        forall q | q in s[p].imports ensures q in cur {
          ResolveMembers(tc.parse(p, cur[p]).imports, cur, q);
        }
        FilterAll(s[p].imports, q => q in s && s[q].kind == Production);
      }
    } else {
      var p :| p in cur && tc.classify(p) != Production;
      assert p in ImportEdges(s) && p !in ProductionGraph(s);
    }
  }

  // ---------------------------------------------------------------------------------------------
  // Storage and publication
  // ---------------------------------------------------------------------------------------------

  /** Entries by path; a later entry wins. */
  function ByPath(entries: seq<Entry>): (m: map<Path, Entry>)
    ensures SelfDescribing(m)
  {
    if entries == [] then map[]
    else ByPath(entries[..|entries| - 1])[entries[|entries| - 1].facts.path := entries[|entries| - 1]]
  }

  function Published(asts: seq<Ast>, byPath: map<Path, Entry>): seq<Facts> {
    if asts == [] then []
    else
      var last := asts[|asts| - 1].path;
      Published(asts[..|asts| - 1], byPath) + if last in byPath then [byPath[last].facts] else []
  }

  /** The writes a process with `steps` steps left gets through. */
  function Cut(writes: seq<Facts>, steps: nat): seq<Facts> {
    if steps <= |writes| then writes[..steps] else writes
  }

  lemma {:induction false} WriteStep(s: Shards, writes: seq<Facts>, w: Facts, steps: nat)
    ensures WriteAll(s, Cut(writes + [w], steps))
            == if steps > |writes| then WriteAll(s, Cut(writes, steps))[w.path := w] else WriteAll(s, Cut(writes, steps))
  {
    if steps > |writes| {
      assert Cut(writes + [w], steps) == writes + [w];
      assert (writes + [w])[..|writes|] == writes;
    } else {
      assert Cut(writes + [w], steps) == Cut(writes, steps);
    }
  }

  /** Every shard is the one from before or, for a parsed file, the new entry. */
  ghost predicate Rewritten(before: map<Path, Entry>, asts: seq<Ast>, byPath: map<Path, Entry>, after: map<Path, Entry>) {
    forall p :: p in after ==>
      if p in AstPaths(asts) && p in byPath then after[p] == byPath[p] else p in before && after[p] == before[p]
  }

  lemma {:induction false} RewrittenStep(before: map<Path, Entry>, asts: seq<Ast>, i: nat, byPath: map<Path, Entry>,
                                         after: map<Path, Entry>)
    requires i < |asts| && Rewritten(before, asts[..i], byPath, after)
    ensures asts[i].path in byPath ==> Rewritten(before, asts[..i + 1], byPath, after[asts[i].path := byPath[asts[i].path]])
    ensures asts[i].path !in byPath ==> Rewritten(before, asts[..i + 1], byPath, after)
  {
    assert asts[..i + 1] == asts[..i] + [asts[i]];
    assert AstPaths(asts[..i + 1]) == AstPaths(asts[..i]) + {asts[i].path};
  }

  lemma {:induction false} FactsOfUpdate(m: map<Path, Entry>, e: Entry)
    ensures FactsOf(m[e.facts.path := e]) == FactsOf(m)[e.facts.path := e.facts]
  {
  }

  /** `before` after the shard writes of the parsed files, with `steps` steps at the start and `left`
      after them. */
  ghost predicate ShardsWritten(before: map<Path, Entry>, steps: nat, asts: seq<Ast>, byPath: map<Path, Entry>,
                                after: map<Path, Entry>, left: nat) {
    var writes := Published(asts, byPath);
    && FactsOf(after) == WriteAll(FactsOf(before), Cut(writes, steps))
    && left == (if steps >= |writes| then steps - |writes| else 0)
    && (steps >= |writes| ==> Rewritten(before, asts, byPath, after))
    && (steps == 0 ==> after == before)
    && (SelfDescribing(before) ==> SelfDescribing(after))
  }

  /** The next parsed file is written if it has an entry and a step is left. */
  lemma {:induction false} ShardWritten(before: map<Path, Entry>, steps: nat, asts: seq<Ast>, i: nat, byPath: map<Path, Entry>,
                                        m: map<Path, Entry>, left: nat, m': map<Path, Entry>, left': nat)
    requires i < |asts| && SelfDescribing(byPath)
    requires ShardsWritten(before, steps, asts[..i], byPath, m, left)
    requires var p := asts[i].path;
      if p in byPath && left > 0 then m' == m[p := byPath[p]] && left' == left - 1 else m' == m && left' == left
    ensures ShardsWritten(before, steps, asts[..i + 1], byPath, m', left')
  {
    var p, writes := asts[i].path, Published(asts[..i], byPath);
    assert asts[..i + 1][..i] == asts[..i];
    if steps >= |writes| {
      RewrittenStep(before, asts, i, byPath, m);
    }
    if p in byPath {
      assert Published(asts[..i + 1], byPath) == writes + [byPath[p].facts];
      WriteStep(FactsOf(before), writes, byPath[p].facts, steps);
      FactsOfUpdate(m, byPath[p]);
    } else {
      assert Published(asts[..i + 1], byPath) == writes;
    }
  }

  /** `before` after all writes and deletes that `steps` steps allow. */
  ghost predicate ShardsPublished(before: map<Path, Entry>, steps: nat, asts: seq<Ast>, byPath: map<Path, Entry>,
                                  deleted: seq<Path>, after: map<Path, Entry>) {
    && FactsOf(after) == AfterSteps(FactsOf(before), Published(asts, byPath), deleted, steps)
    && (steps >= |Published(asts, byPath)| ==> Rewritten(before, asts, byPath, after))
    && (steps == 0 ==> after == before)
    && (SelfDescribing(before) ==> SelfDescribing(after))
  }

  lemma {:induction false} PublishedAfterWrites(before: map<Path, Entry>, steps: nat, asts: seq<Ast>, byPath: map<Path, Entry>,
                                                written: map<Path, Entry>, deleted: seq<Path>, after: map<Path, Entry>)
    requires var writes := Published(asts, byPath);
      var left := if steps >= |writes| then steps - |writes| else 0;
      && ShardsWritten(before, steps, asts, byPath, written, left)
      && after == written - Elements(deleted[..if left <= |deleted| then left else |deleted|])
    ensures ShardsPublished(before, steps, asts, byPath, deleted, after)
  {
    var writes := Published(asts, byPath);
    assert writes[..|writes|] == writes;
    if steps <= |writes| {
      assert after == written;
    }
  }

  /** What is on file: the shards, and the entries whose identity the index names. */
  datatype Baseline = Baseline(shards: map<Path, Entry>, index: Option<map<Path, Entry>>)

  /** What the store refuses: to read a generation whose identity has drifted, and to write or delete
      shards while a recovery is pending. */
  datatype Guards = Guards(checksIdentity: bool, recoveryPending: bool)

  /** Reading a generation fails when its index names the identity of other entries.  An index
      without an identity is not checked, nor is a directory without shards. */
  predicate Drifted(checksIdentity: bool, b: Baseline) {
    checksIdentity && b.index.Some? && b.shards != map[] && b.index.value != b.shards
  }

  /** The baseline store behind the storage port.  `stepsLeft` is the number of publication steps
      the process still survives: at zero every further step is lost. */
  class Storage {
    var shards: map<Path, Entry>
    var index: Option<map<Path, Entry>>
    var stepsLeft: nat
    const guards: Guards

    constructor (shards: map<Path, Entry>, index: Option<map<Path, Entry>>, stepsLeft: nat, guards: Guards)
      ensures this.shards == shards && this.index == index && this.stepsLeft == stepsLeft
      ensures this.guards == guards
    {
      this.shards, this.index, this.stepsLeft, this.guards := shards, index, stepsLeft, guards;
    }

    function Contents(): Baseline
      reads this
    {
      Baseline(shards, index)
    }

    method WriteFileMetrics(entry: Entry)
      modifies this
      ensures shards == if old(stepsLeft) > 0 then old(shards)[entry.facts.path := entry] else old(shards)
      ensures stepsLeft == if old(stepsLeft) > 0 then old(stepsLeft) - 1 else 0
      ensures index == old(index)
      ensures old(SelfDescribing(shards)) ==> SelfDescribing(shards)
    {
      if stepsLeft > 0 {
        shards, stepsLeft := shards[entry.facts.path := entry], stepsLeft - 1;
      }
    }

    /** Shards are unlinked one by one. */
    method DeleteFileMetrics(paths: seq<Path>)
      modifies this
      ensures shards == old(shards) - Elements(paths[..if old(stepsLeft) <= |paths| then old(stepsLeft) else |paths|])
      ensures stepsLeft == if old(stepsLeft) >= |paths| then old(stepsLeft) - |paths| else 0
      ensures index == old(index)
    {
      for i := 0 to |paths|
        invariant index == old(index)
        invariant stepsLeft == if old(stepsLeft) >= i then old(stepsLeft) - i else 0
        invariant shards == old(shards) - Elements(paths[..if old(stepsLeft) <= i then old(stepsLeft) else i])
      {
        assert paths[..i + 1] == paths[..i] + [paths[i]];
        assert Elements(paths[..i + 1]) == Elements(paths[..i]) + {paths[i]};
        if stepsLeft > 0 {
          shards, stepsLeft := shards - {paths[i]}, stepsLeft - 1;
        }
      }
      assert paths[..|paths|] == paths;
    }

    method WriteCanonicalIndex(identity: map<Path, Entry>)
      modifies this
      ensures shards == old(shards)
      ensures index == if old(stepsLeft) > 0 then Some(identity) else old(index)
      ensures stepsLeft == if old(stepsLeft) > 0 then old(stepsLeft) - 1 else 0
    {
      if stepsLeft > 0 {
        index, stepsLeft := Some(identity), stepsLeft - 1;
      }
    }

    /** A full publication replaces the whole generation in one step. */
    method WriteBaseline(entries: seq<Entry>)
      modifies this
      ensures old(stepsLeft) > 0 ==> shards == ByPath(entries) && index == Some(ByPath(entries))
      ensures old(stepsLeft) == 0 ==> shards == old(shards) && index == old(index) && stepsLeft == 0
    {
      if stepsLeft > 0 {
        shards, index, stepsLeft := ByPath(entries), Some(ByPath(entries)), stepsLeft - 1;
      }
    }

    /** Writes, then deletes, then the index. */
    method PublishIncrementalEntries(asts: seq<Ast>, entries: seq<Entry>, deleted: seq<Path>)
      modifies this
      ensures ShardsPublished(old(shards), old(stepsLeft), asts, ByPath(entries), deleted, shards)
      ensures var last := |Published(asts, ByPath(entries))| + |deleted|;
        && index == (if old(stepsLeft) > last then Some(ByPath(entries)) else old(index))
        && (stepsLeft > 0 ==> old(stepsLeft) > last)
    {
      var byPath := ByPath(entries);
      WriteShards(asts, byPath);
      ghost var written := shards;
      if |deleted| > 0 {
        DeleteFileMetrics(deleted);
      }
      PublishedAfterWrites(old(shards), old(stepsLeft), asts, byPath, written, deleted, shards);
      WriteCanonicalIndex(byPath);
    }

    /** One shard per parsed file, in order. */
    method WriteShards(asts: seq<Ast>, byPath: map<Path, Entry>)
      requires SelfDescribing(byPath)
      modifies this
      ensures ShardsWritten(old(shards), old(stepsLeft), asts, byPath, shards, stepsLeft)
      ensures index == old(index)
    {
      for i := 0 to |asts|
        invariant index == old(index)
        invariant ShardsWritten(old(shards), old(stepsLeft), asts[..i], byPath, shards, stepsLeft)
      {
        ghost var m, left := shards, stepsLeft;
        if asts[i].path in byPath {
          WriteFileMetrics(byPath[asts[i].path]);
        }
        ShardWritten(old(shards), old(stepsLeft), asts, i, byPath, m, left, shards, stepsLeft);
      }
      assert asts[..|asts|] == asts;
    }
  }

  // ---------------------------------------------------------------------------------------------
  // The transaction
  // ---------------------------------------------------------------------------------------------

  ghost predicate OnePerPath(entries: seq<Entry>) {
    forall e, f :: e in entries && f in entries && e.facts.path == f.facts.path ==> e == f
  }

  lemma {:induction false} ByPathIs(entries: seq<Entry>)
    requires OnePerPath(entries)
    ensures ByPath(entries).Keys == EntryPaths(entries)
    ensures forall e :: e in entries ==> ByPath(entries)[e.facts.path] == e
  {
    if entries != [] {
      var front, last := entries[..|entries| - 1], entries[|entries| - 1];
      assert entries == front + [last];
      ByPathIs(front);
      assert EntryPaths(entries) == EntryPaths(front) + {last.facts.path};
    }
  }

  lemma {:induction false} PublishedIs(tc: Toolchain, cur: Source, asts: seq<Ast>, byPath: map<Path, Entry>)
    requires forall a :: a in asts ==> a.path in cur && a.path in byPath && byPath[a.path].facts == FullFacts(tc, cur, a.path)
    ensures Published(asts, byPath) == FactsList(tc, cur, asts)
  {
    if asts != [] {
      var front, last := asts[..|asts| - 1], asts[|asts| - 1];
      assert asts == front + [last];
      PublishedIs(tc, cur, front, byPath);
    }
  }

  lemma {:induction false} MadeEntries(tc: Toolchain, cur: Source, asts: seq<Ast>, carried: Path -> Carried)
    requires forall a :: a in asts ==> a.path in cur && ParseFile(tc, cur, a.path) == Some(a)
    ensures EntryPaths(EntriesOf(tc, cur, asts, carried)) == AstPaths(asts)
    ensures forall e :: e in EntriesOf(tc, cur, asts, carried) ==>
      e.facts.path in cur && e == Entry(FullFacts(tc, cur, e.facts.path), carried(e.facts.path))
  {
    var made := EntriesOf(tc, cur, asts, carried);
    forall i | 0 <= i < |made| ensures made[i] == Entry(FullFacts(tc, cur, asts[i].path), carried(asts[i].path)) {
      ProjectionIsFull(tc, cur, asts[i].path);
    }
    forall p | p in AstPaths(asts) ensures p in EntryPaths(made) {
      var i :| 0 <= i < |asts| && asts[i].path == p;
      assert made[i] in made;
    }
  }

  lemma {:induction false} AssembledEntries(tc: Toolchain, s: map<Path, Entry>, cur: Source, r: Prepared, carried: Path -> Carried)
    requires r.Ready? && CanParse(tc, FactsOf(s), cur) && IsReady(tc, s, cur, r)
    ensures var entries := r.reused + EntriesOf(tc, cur, r.asts, carried);
      && OnePerPath(entries)
      && EntryPaths(entries) == RunResult(tc, FactsOf(s), cur).Keys
      && forall e :: e in entries ==> e.facts.path in RunResult(tc, FactsOf(s), cur)
                                      && e.facts == RunResult(tc, FactsOf(s), cur)[e.facts.path]
  {
    var made := EntriesOf(tc, cur, r.asts, carried);
    MadeEntries(tc, cur, r.asts, carried);
    forall e | e in made ensures e.facts.path in ToParse(tc, FactsOf(s), cur) {
      assert e.facts.path in EntryPaths(made);
    }
    forall e | e in r.reused ensures e.facts.path !in ToParse(tc, FactsOf(s), cur) {
      assert e.facts.path in EntryPaths(r.reused);
    }
    assert EntryPaths(r.reused + made) == EntryPaths(r.reused) + EntryPaths(made);
    ResultPaths(tc, FactsOf(s), cur);
    forall e | e in r.reused + made ensures e.facts.path in RunResult(tc, FactsOf(s), cur) {
      assert e.facts.path in EntryPaths(r.reused + made);
    }
  }

  lemma {:induction false} ResultPaths(tc: Toolchain, s: Shards, cur: Source)
    requires CanParse(tc, s, cur)
    ensures RunResult(tc, s, cur).Keys == (s.Keys - Deleted(s, cur) - ToParse(tc, s, cur)) + ToParse(tc, s, cur)
  {
    forall p | p in ToParse(tc, s, cur) ensures p in RunResult(tc, s, cur) {
      assert p in cur;
    }
  }

  /** What a prepared run publishes is a plan of the run, and its index describes the result. */
  lemma {:induction false} PreparedIsPlan(tc: Toolchain, s: map<Path, Entry>, cur: Source, r: Prepared, carried: Path -> Carried)
    requires r.Ready? && CanParse(tc, FactsOf(s), cur) && IsReady(tc, s, cur, r)
    ensures var byPath := ByPath(r.reused + EntriesOf(tc, cur, r.asts, carried));
      && FactsOf(byPath) == RunResult(tc, FactsOf(s), cur)
      && |Published(r.asts, byPath)| == |r.asts|
      && exists n: nat :: IsPlan(tc, FactsOf(s), cur, Published(r.asts, byPath), n, r.deleted)
  {
    var entries := r.reused + EntriesOf(tc, cur, r.asts, carried);
    var byPath := ByPath(entries);
    var result := RunResult(tc, FactsOf(s), cur);
    assert FactsOf(byPath) == result by {
      AssembledEntries(tc, s, cur, r, carried);
      FactsByPath(entries, result);
    }
    assert Published(r.asts, byPath) == FactsList(tc, cur, r.asts) by {
      ResultPaths(tc, FactsOf(s), cur);
      forall a | a in r.asts ensures a.path in byPath && byPath[a.path].facts == FullFacts(tc, cur, a.path) {
        assert a.path in AstPaths(r.asts) && a.path in FactsOf(byPath);
      }
      PublishedIs(tc, cur, r.asts, byPath);
    }
    ReadyIsPlan(tc, s, cur, r);
  }

  lemma {:induction false} FactsByPath(entries: seq<Entry>, result: Shards)
    requires OnePerPath(entries) && EntryPaths(entries) == result.Keys
    requires forall e :: e in entries ==> e.facts.path in result && e.facts == result[e.facts.path]
    ensures FactsOf(ByPath(entries)) == result
  {
    var byPath := ByPath(entries);
    ByPathIs(entries);
    forall p | p in byPath ensures byPath[p].facts == result[p] {
      var e :| e in entries && e.facts.path == p;
    }
  }

  /** The facts of the parsed files, in order, are a plan. */
  lemma {:induction false} ReadyIsPlan(tc: Toolchain, s: map<Path, Entry>, cur: Source, r: Prepared)
    requires r.Ready? && CanParse(tc, FactsOf(s), cur) && IsReady(tc, s, cur, r)
    ensures exists n: nat :: IsPlan(tc, FactsOf(s), cur, FactsList(tc, cur, r.asts), n, r.deleted)
  {
    var writes := FactsList(tc, cur, r.asts);
    FactsListPaths(tc, cur, r.asts);
    var n: nat :| n <= |r.asts| && AstPaths(r.asts[..n]) == Changed(tc, FactsOf(s), cur) && OnceParsed(r.asts[..n]);
    assert PathsOf(writes[..n]) == AstPaths(r.asts[..n]) && OncePerPath(writes[..n]) by {
      FactsListStart(tc, cur, r.asts, n);
    }
    assert IsPlan(tc, FactsOf(s), cur, writes, n, r.deleted);
  }

  lemma {:induction false} FactsListStart(tc: Toolchain, cur: Source, asts: seq<Ast>, n: nat)
    requires (forall a :: a in asts ==> a.path in cur) && n <= |asts|
    ensures PathsOf(FactsList(tc, cur, asts)[..n]) == AstPaths(asts[..n])
    ensures OnceParsed(asts[..n]) ==> OncePerPath(FactsList(tc, cur, asts)[..n])
  {
    FactsListPaths(tc, cur, asts[..n]);
    assert FactsList(tc, cur, asts)[..n] == FactsList(tc, cur, asts[..n]);
  }

  lemma {:induction false} FactsListPaths(tc: Toolchain, cur: Source, asts: seq<Ast>)
    requires forall a :: a in asts ==> a.path in cur
    ensures PathsOf(FactsList(tc, cur, asts)) == AstPaths(asts)
    ensures forall w :: w in FactsList(tc, cur, asts) ==> w.path in cur && w == FullFacts(tc, cur, w.path)
  {
    var l := FactsList(tc, cur, asts);
    forall p | p in AstPaths(asts) ensures p in PathsOf(l) {
      var a :| a in asts && a.path == p;
      var i :| 0 <= i < |asts| && asts[i] == a;
      assert l[i].path == p;
    }
  }

  datatype Outcome = Empty | Failed | ShortCircuit | Incremental | Full

  method ListPaths(m: map<Path, Entry>) returns (listing: seq<Path>)
    ensures Elements(listing) == m.Keys && Distinct(listing)
  {
    listing := [];
    var rest := m.Keys;
    while rest != {}
      invariant Elements(listing) + rest == m.Keys && Elements(listing) !! rest
      invariant Distinct(listing)
      decreases rest
    {
      var p :| p in rest;
      assert p !in Elements(listing);
      assert Elements(listing + [p]) == Elements(listing) + {p};
      listing, rest := listing + [p], rest - {p};
    }
  }

  lemma {:induction false} FullEntries(tc: Toolchain, cur: Source, asts: seq<Ast>, carried: Path -> Carried)
    requires AstPaths(asts) == cur.Keys
    requires forall a :: a in asts ==> a.path in cur && ParseFile(tc, cur, a.path) == Some(a)
    ensures FactsOf(ByPath(EntriesOf(tc, cur, asts, carried))) == FullScan(tc, cur)
    ensures SelfDescribing(ByPath(EntriesOf(tc, cur, asts, carried)))
  {
    var entries := EntriesOf(tc, cur, asts, carried);
    MadeEntries(tc, cur, asts, carried);
    ByPathIs(entries);
    forall p | p in cur ensures p in ByPath(entries) && ByPath(entries)[p].facts == FullFacts(tc, cur, p) {
      assert p in EntryPaths(entries);
      var e :| e in entries && e.facts.path == p;
    }
  }

  /** What a full publication with `steps` steps left does: everything or nothing. */
  ghost predicate Replaces(tc: Toolchain, cur: Source, steps: nat, b: Baseline, b': Baseline) {
    if steps == 0 then b' == b
    else FactsOf(b'.shards) == FullScan(tc, cur) && b'.index == Some(b'.shards)
  }

  /** What an incremental publication of the plan with `steps` steps left does. */
  ghost predicate PublishesPlan(tc: Toolchain, cur: Source, writes: seq<Facts>, changed: nat, deletes: seq<Path>, steps: nat,
                                b: Baseline, b': Baseline) {
    && IsPlan(tc, FactsOf(b.shards), cur, writes, changed, deletes)
    && FactsOf(b'.shards) == AfterSteps(FactsOf(b.shards), writes, deletes, steps)
    && b'.index == (if steps > |writes| + |deletes| then Some(b'.shards) else b.index)
    && (steps == 0 ==> b' == b)
  }

  ghost predicate Publishes(tc: Toolchain, cur: Source, steps: nat, b: Baseline, b': Baseline, survived: bool) {
    exists writes, changed: nat, deletes ::
      PublishesPlan(tc, cur, writes, changed, deletes, steps, b, b') && (survived ==> steps > |writes| + |deletes|)
  }

  predicate Hashed(shards: map<Path, Entry>) {
    exists p :: p in shards && shards[p].facts.contentHash.Some?
  }

  /** Some file has to be parsed or some shard deleted. */
  predicate HasWork(tc: Toolchain, shards: map<Path, Entry>, cur: Source) {
    ToParse(tc, FactsOf(shards), cur) != {} || Deleted(FactsOf(shards), cur) != {}
  }

  /** One scan with `steps` publication steps left, from what is on file before to what is after. */
  ghost predicate ScanStep(tc: Toolchain, cur: Source, g: Guards, incremental: bool, steps: nat,
                           b: Baseline, outcome: Outcome, b': Baseline, survived: bool)
  {
    if cur == map[] then
      outcome == Empty && b' == b
    else if incremental && Drifted(g.checksIdentity, b) then
      outcome == Failed && b' == b
    else if !incremental || !Hashed(b.shards) then
      outcome == Full && Replaces(tc, cur, steps, b, b') && (survived ==> steps > 0)
    else if !CanParse(tc, FactsOf(b.shards), cur) then
      outcome == Failed && b' == b
    else if !HasWork(tc, b.shards, cur) then
      outcome == ShortCircuit && b' == b
    else if g.recoveryPending then
      outcome == Failed && b' == b
    else
      outcome == Incremental && Publishes(tc, cur, steps, b, b', survived)
  }

  /** Every path is parsed and the generation is replaced as a whole. */
  method RunFull(store: Storage, tc: Toolchain, paths: seq<Path>, cur: Source, carried: Path -> Carried)
    requires Elements(paths) == cur.Keys
    requires SelfDescribing(store.shards)
    modifies store
    ensures SelfDescribing(store.shards)
    ensures Replaces(tc, cur, old(store.stepsLeft), old(store.Contents()), store.Contents())
    ensures old(store.stepsLeft) == 0 ==> store.stepsLeft == 0
  {
    var parsed := ParseAll(tc, cur, paths);
    var asts := parsed.value;
    AstPathsOf(tc, cur, paths, asts);
    forall a | a in asts ensures a.path in cur && ParseFile(tc, cur, a.path) == Some(a) {
      var j :| 0 <= j < |asts| && asts[j] == a;
      assert paths[j] in Elements(paths);
    }
    var entries, branch := ComputeEntries(tc, cur, asts, [], carried);
    FullEntries(tc, cur, asts, carried);
    assert entries == EntriesOf(tc, cur, asts, carried);
    store.WriteBaseline(entries);
  }

  /** After the last step the shards are the entries the index is computed from. */
  lemma {:induction false} CompleteEntries(tc: Toolchain, s: map<Path, Entry>, cur: Source, r: Prepared, carried: Path -> Carried,
                                           after: map<Path, Entry>)
    requires r.Ready? && CanParse(tc, FactsOf(s), cur) && IsReady(tc, s, cur, r)
    requires Rewritten(s, r.asts, ByPath(r.reused + EntriesOf(tc, cur, r.asts, carried)), after)
    requires FactsOf(after) == RunResult(tc, FactsOf(s), cur)
    ensures after == ByPath(r.reused + EntriesOf(tc, cur, r.asts, carried))
  {
    PreparedPaths(tc, s, cur, r, carried);
    ReusedAreKept(tc, s, cur, r, carried);
    assert FactsOf(after).Keys == after.Keys;
    SameEntries(s, r.asts, ByPath(r.reused + EntriesOf(tc, cur, r.asts, carried)), after);
  }

  lemma {:induction false} PreparedPaths(tc: Toolchain, s: map<Path, Entry>, cur: Source, r: Prepared, carried: Path -> Carried)
    requires r.Ready? && CanParse(tc, FactsOf(s), cur) && IsReady(tc, s, cur, r)
    ensures ByPath(r.reused + EntriesOf(tc, cur, r.asts, carried)).Keys == RunResult(tc, FactsOf(s), cur).Keys
  {
    PreparedIsPlan(tc, s, cur, r, carried);
    var byPath := ByPath(r.reused + EntriesOf(tc, cur, r.asts, carried));
    assert FactsOf(byPath).Keys == byPath.Keys;
  }

  lemma {:induction false} SameEntries(s: map<Path, Entry>, asts: seq<Ast>, byPath: map<Path, Entry>, after: map<Path, Entry>)
    requires Rewritten(s, asts, byPath, after) && byPath.Keys == after.Keys
    requires forall p :: p in byPath && p !in AstPaths(asts) ==> p in s && byPath[p] == s[p]
    ensures after == byPath
  {
    forall p | p in after ensures after[p] == byPath[p] {
      assert p in byPath;
    }
  }

  lemma {:induction false} ReusedAreKept(tc: Toolchain, s: map<Path, Entry>, cur: Source, r: Prepared, carried: Path -> Carried)
    requires r.Ready? && CanParse(tc, FactsOf(s), cur) && IsReady(tc, s, cur, r)
    ensures var byPath := ByPath(r.reused + EntriesOf(tc, cur, r.asts, carried));
      forall p :: p in byPath && p !in AstPaths(r.asts) ==> p in s && byPath[p] == s[p]
  {
    var made := EntriesOf(tc, cur, r.asts, carried);
    var entries := r.reused + made;
    AssembledEntries(tc, s, cur, r, carried);
    MadeEntries(tc, cur, r.asts, carried);
    ByPathIs(entries);
    forall p | p in ByPath(entries) && p !in AstPaths(r.asts) ensures p in s && ByPath(entries)[p] == s[p] {
      assert p in EntryPaths(entries);
      var e :| e in entries && e.facts.path == p;
      assert e in made ==> p in EntryPaths(made);
    }
  }

  /** Publishes a prepared run that has something to publish. */
  method RunPrepared(store: Storage, tc: Toolchain, cur: Source, prepared: Prepared, carried: Path -> Carried)
    requires prepared.Ready? && CanParse(tc, FactsOf(store.shards), cur)
    requires IsReady(tc, store.shards, cur, prepared) && SelfDescribing(store.shards)
    modifies store
    ensures SelfDescribing(store.shards)
    ensures Publishes(tc, cur, old(store.stepsLeft), old(store.Contents()), store.Contents(), store.stepsLeft > 0)
  {
    ghost var b := store.Contents();
    var entries, branch := ComputeEntries(tc, cur, prepared.asts, prepared.reused, carried);
    PreparedIsPlan(tc, b.shards, cur, prepared, carried);
    ghost var writes := Published(prepared.asts, ByPath(entries));
    ghost var n: nat :| IsPlan(tc, FactsOf(b.shards), cur, writes, n, prepared.deleted);
    ghost var steps := store.stepsLeft;
    store.PublishIncrementalEntries(prepared.asts, entries, prepared.deleted);
    if steps > |writes| + |prepared.deleted| {
      PlanCompletes(tc, FactsOf(b.shards), cur, writes, n, prepared.deleted, steps);
      CompleteEntries(tc, b.shards, cur, prepared, carried, store.shards);
    }
    assert steps == 0 ==> store.Contents() == b;
    assert PublishesPlan(tc, cur, writes, n, prepared.deleted, steps, b, store.Contents());
  }

  /** One scan of the tree `cur`.  The process outlived its run if `stepsLeft > 0` afterwards. */
  method RunScan(store: Storage, tc: Toolchain, paths: seq<Path>, cur: Source, incremental: bool, carried: Path -> Carried)
    returns (outcome: Outcome)
    requires Elements(paths) == cur.Keys && Distinct(paths)
    requires SelfDescribing(store.shards)
    modifies store
    ensures SelfDescribing(store.shards)
    ensures ScanStep(tc, cur, store.guards, incremental, old(store.stepsLeft), old(store.Contents()), outcome,
                     store.Contents(), store.stepsLeft > 0)
  {
    if paths == [] {
      return Empty;
    }
    assert paths[0] in Elements(paths);
    if Drifted(store.guards.checksIdentity, store.Contents()) && incremental {
      return Failed;
    }
    if incremental && store.shards != map[] {
      var listing := ListPaths(store.shards);
      var prepared := PrepareIncrementalScan(tc, listing, store.shards, paths, cur);
      if prepared.ParseFailed? {
        return Failed;
      }
      if prepared.Ready? {
        if prepared.asts == [] && prepared.deleted == [] {
          NothingToPublish(tc, store.shards, cur, prepared);
          return ShortCircuit;
        }
        SomethingToPublish(tc, store.shards, cur, prepared);
        if store.guards.recoveryPending {
          return Failed;
        }
        RunPrepared(store, tc, cur, prepared, carried);
        return Incremental;
      }
    }
    RunFull(store, tc, paths, cur, carried);
    outcome := Full;
  }

  // ---------------------------------------------------------------------------------------------
  // What a scan files
  // ---------------------------------------------------------------------------------------------

  /** The text of the file on record is not the current one, or there is none. */
  predicate Differs(tc: Toolchain, shards: map<Path, Entry>, cur: Source, p: Path) {
    p in cur && (p !in shards || shards[p].facts.contentHash != Some(tc.hash(cur[p])))
  }

  /** A file with a recorded text is gone. */
  predicate Gone(shards: map<Path, Entry>, cur: Source, p: Path) {
    p in shards && p !in cur && shards[p].facts.contentHash.Some?
  }

  /** A scan parses a file whose text differs, and one that is on record as a direct importer of a file
      that differs or is gone. */
  ghost predicate Parses(tc: Toolchain, shards: map<Path, Entry>, cur: Source, p: Path) {
    || Differs(tc, shards, cur, p)
    || (p in shards && exists d :: d in shards[p].facts.imports && (Differs(tc, shards, cur, d) || Gone(shards, cur, d)))
  }

  lemma {:induction false} ParsesIff(tc: Toolchain, shards: map<Path, Entry>, cur: Source, p: Path)
    ensures p in ToParse(tc, FactsOf(shards), cur) <==> Parses(tc, shards, cur, p)
  {
    var s := FactsOf(shards);
    forall d ensures d in Changed(tc, s, cur) + Deleted(s, cur) <==> Differs(tc, shards, cur, d) || Gone(shards, cur, d) {
    }
    if p in shards && exists d :: d in shards[p].facts.imports && (Differs(tc, shards, cur, d) || Gone(shards, cur, d)) {
      var d :| d in shards[p].facts.imports && (Differs(tc, shards, cur, d) || Gone(shards, cur, d));
      assert d in s[p].imports && d in Changed(tc, s, cur) + Deleted(s, cur);
    }
  }

  /** Every shard is the one from before, or records its file in the tree. */
  ghost predicate KeptOrRecorded(tc: Toolchain, cur: Source, before: map<Path, Entry>, p: Path, f: Facts) {
    (p in before && before[p].facts == f) || (p in cur && Records(tc, cur, p, f))
  }

  /** The index on file names other entries than there are, and the store looks. */
  ghost predicate IdentityDiffers(g: Guards, b: Baseline) {
    && g.checksIdentity && b.index.Some? && b.index != Some(b.shards)
    && exists p :: p in b.shards
  }

  /** A shard with a hash is on file, so that there is something to compare with. */
  ghost predicate Comparable(b: Baseline) {
    exists p :: p in b.shards && b.shards[p].facts.contentHash.Some?
  }

  /** A file that would have to be parsed is gone. */
  ghost predicate ParsesMissing(tc: Toolchain, cur: Source, b: Baseline) {
    exists p :: p !in cur && Parses(tc, b.shards, cur, p)
  }

  ghost predicate Busy(tc: Toolchain, cur: Source, b: Baseline) {
    exists p :: Parses(tc, b.shards, cur, p) || Gone(b.shards, cur, p)
  }

  /** When a scan ends how.  The checks come in this order: the tree, the identity, whether there is
      something to compare with, missing files, whether there is anything to do, a pending recovery. */
  lemma {:induction false} OutcomeIff(tc: Toolchain, cur: Source, g: Guards, incremental: bool, steps: nat,
                                      b: Baseline, outcome: Outcome, b': Baseline, survived: bool)
    requires ScanStep(tc, cur, g, incremental, steps, b, outcome, b', survived)
    ensures outcome.Empty? <==> cur == map[]
    ensures outcome.Failed? <==>
      && cur != map[] && incremental
      && (IdentityDiffers(g, b) || (Comparable(b) && (ParsesMissing(tc, cur, b) || (g.recoveryPending && Busy(tc, cur, b)))))
    ensures outcome.ShortCircuit? <==> cur != map[] && incremental && !IdentityDiffers(g, b) && Comparable(b) && !Busy(tc, cur, b)
    ensures outcome.Full? <==> cur != map[] && (!incremental || (!IdentityDiffers(g, b) && !Comparable(b)))
    ensures outcome.Empty? || outcome.Failed? || outcome.ShortCircuit? ==> b' == b
    ensures survived && outcome.Full? ==> b'.index == Some(b'.shards)
    ensures survived && outcome.Incremental? ==> b'.index == Some(b'.shards)
  {
    var s := FactsOf(b.shards);
    assert Drifted(g.checksIdentity, b) <==> IdentityDiffers(g, b) by {
      if b.shards != map[] {
        var p :| p in b.shards;
      }
    }
    forall p ensures p in ToParse(tc, s, cur) <==> Parses(tc, b.shards, cur, p) {
      ParsesIff(tc, b.shards, cur, p);
    }
    assert CanParse(tc, s, cur) <==> !ParsesMissing(tc, cur, b);
    assert HasWork(tc, b.shards, cur) <==> Busy(tc, cur, b) by {
      forall p ensures p in Deleted(s, cur) <==> Gone(b.shards, cur, p) {
      }
      if HasWork(tc, b.shards, cur) {
        var p :| p in ToParse(tc, s, cur) || p in Deleted(s, cur);
      }
    }
  }

  /** What the shards are once an incremental scan is through: the files it parses are recorded, the
      deleted ones are dropped, and everything else is kept. */
  ghost predicate FiledIncrementally(tc: Toolchain, cur: Source, before: map<Path, Entry>, after: map<Path, Entry>) {
    && (forall p :: p in after <==> Differs(tc, before, cur, p) || (p in before && !Gone(before, cur, p)))
    && forall p :: p in after ==>
         if Parses(tc, before, cur, p) then p in cur && Records(tc, cur, p, after[p].facts)
         else p in before && after[p].facts == before[p].facts
  }

  /** Whatever a scan does and wherever it stops, every shard on file afterwards is an old one or
      records its file; a full scan that ends records all files, an incremental one those it parses. */
  lemma {:induction false} ScanFiles(tc: Toolchain, cur: Source, g: Guards, incremental: bool, steps: nat,
                                     b: Baseline, outcome: Outcome, b': Baseline, survived: bool)
    requires ScanStep(tc, cur, g, incremental, steps, b, outcome, b', survived)
    ensures forall p :: p in b'.shards ==> KeptOrRecorded(tc, cur, b.shards, p, b'.shards[p].facts)
    ensures outcome.Full? && survived ==>
      b'.shards.Keys == cur.Keys && forall p :: p in cur ==> Records(tc, cur, p, b'.shards[p].facts)
    ensures outcome.Incremental? && survived ==> FiledIncrementally(tc, cur, b.shards, b'.shards)
  {
    if outcome.Full? && steps > 0 {
      FullScanRecords(tc, cur, b'.shards);
    } else if outcome.Incremental? {
      var writes, changed: nat, deletes :|
        PublishesPlan(tc, cur, writes, changed, deletes, steps, b, b') && (survived ==> steps > |writes| + |deletes|);
      PublishedShards(tc, cur, writes, changed, deletes, steps, b, b');
      if survived {
        FinishedShards(tc, cur, writes, changed, deletes, steps, b, b');
      }
    }
  }

  lemma {:induction false} FullScanRecords(tc: Toolchain, cur: Source, shards: map<Path, Entry>)
    requires FactsOf(shards) == FullScan(tc, cur)
    ensures shards.Keys == cur.Keys && forall p :: p in cur ==> Records(tc, cur, p, shards[p].facts)
  {
    assert FactsOf(shards).Keys == shards.Keys;
    forall p | p in cur ensures Records(tc, cur, p, shards[p].facts) {
      assert FactsOf(shards)[p] == FullFacts(tc, cur, p);
      RecordsIff(tc, cur, p, FullFacts(tc, cur, p));
    }
  }

  lemma {:induction false} PublishedShards(tc: Toolchain, cur: Source, writes: seq<Facts>, changed: nat, deletes: seq<Path>, steps: nat,
                                           b: Baseline, b': Baseline)
    requires PublishesPlan(tc, cur, writes, changed, deletes, steps, b, b')
    ensures forall p :: p in b'.shards ==> KeptOrRecorded(tc, cur, b.shards, p, b'.shards[p].facts)
  {
    var done := if steps <= |writes| then writes[..steps] else writes;
    WriteAllIs(tc, FactsOf(b.shards), cur, done);
    forall p | p in b'.shards ensures KeptOrRecorded(tc, cur, b.shards, p, b'.shards[p].facts) {
      assert p in FactsOf(b'.shards);
      if p in PathsOf(done) {
        RecordsIff(tc, cur, p, FullFacts(tc, cur, p));
      }
    }
  }

  lemma {:induction false} FinishedShards(tc: Toolchain, cur: Source, writes: seq<Facts>, changed: nat, deletes: seq<Path>, steps: nat,
                                          b: Baseline, b': Baseline)
    requires PublishesPlan(tc, cur, writes, changed, deletes, steps, b, b') && steps > |writes| + |deletes|
    ensures FiledIncrementally(tc, cur, b.shards, b'.shards)
  {
    var s := FactsOf(b.shards);
    PlanCompletes(tc, s, cur, writes, changed, deletes, steps);
    var after := RunResult(tc, s, cur);
    assert FactsOf(b'.shards) == after && FactsOf(b'.shards).Keys == b'.shards.Keys;
    forall p ensures p in after <==> Differs(tc, b.shards, cur, p) || (p in b.shards && !Gone(b.shards, cur, p)) {
    }
    forall p | p in after
      ensures if Parses(tc, b.shards, cur, p) then p in cur && Records(tc, cur, p, after[p])
              else p in b.shards && after[p] == b.shards[p].facts
    {
      ParsesIff(tc, b.shards, cur, p);
      if p in ToParse(tc, s, cur) {
        RecordsIff(tc, cur, p, FullFacts(tc, cur, p));
      }
    }
  }

  lemma {:induction false} NothingToPublish(tc: Toolchain, s: map<Path, Entry>, cur: Source, r: Prepared)
    requires r.Ready? && CanParse(tc, FactsOf(s), cur) && IsReady(tc, s, cur, r)
    requires r.asts == [] && r.deleted == []
    ensures !HasWork(tc, s, cur)
  {
    assert ToParse(tc, FactsOf(s), cur) == AstPaths([]) == {};
  }

  lemma {:induction false} SomethingToPublish(tc: Toolchain, s: map<Path, Entry>, cur: Source, r: Prepared)
    requires r.Ready? && CanParse(tc, FactsOf(s), cur) && IsReady(tc, s, cur, r)
    requires r.asts != [] || r.deleted != []
    ensures HasWork(tc, s, cur)
  {
    if r.asts != [] {
      assert r.asts[0].path in AstPaths(r.asts);
    } else {
      assert r.deleted[0] in Elements(r.deleted);
    }
  }
}
