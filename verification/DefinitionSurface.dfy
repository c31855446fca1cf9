/** Similarity groups of the definition surface: files linked by similar blocks, grouped by
    connected component. */
module DefinitionSurface {
  import opened Seqs
  import opened BlockSimilarity
  import opened Components
  import opened UnionFind

  datatype Group = Group(files: seq<File>, repeatedBlockLines: int, maxSimilarity: real)

  /** Every block belongs to a file. */
  ghost predicate Located(blocks: seq<Block>, fileOf: map<string, File>, files: set<File>) {
    forall b :: b in blocks ==> b.key in fileOf && fileOf[b.key] in files
  }

  /** Two files are linked when some block of one is similar to some block of the other. */
  ghost predicate Linked(blocks: seq<Block>, fileOf: map<string, File>, threshold: real, f: File, g: File) {
    exists a, b :: SimilarIn(blocks, threshold, a, b) && InFile(fileOf, a, f) && InFile(fileOf, b, g)
  }

  ghost predicate InFile(fileOf: map<string, File>, a: Block, f: File) {
    a.key in fileOf && fileOf[a.key] == f
  }

  function Likeness(a: Block, b: Block): real {
    MinHashSimilarity(a.signature, b.signature)
  }

  ghost predicate Joins(fileOf: map<string, File>, p: (Block, Block), files: set<File>) {
    p.0.key in fileOf && p.1.key in fileOf && {fileOf[p.0.key], fileOf[p.1.key]} == files
  }

  ghost predicate Recorded(fileOf: map<string, File>, best: map<set<File>, real>, p: (Block, Block)) {
    p.0.key in fileOf && p.1.key in fileOf ==>
      {fileOf[p.0.key], fileOf[p.1.key]} in best && Likeness(p.0, p.1) <= best[{fileOf[p.0.key], fileOf[p.1.key]}]
  }

  ghost predicate Attained(seen: seq<(Block, Block)>, fileOf: map<string, File>, best: map<set<File>, real>, u: set<File>)
    requires u in best
  {
    exists p :: p in seen && Joins(fileOf, p, u) && Likeness(p.0, p.1) == best[u]
  }

  /** `best` holds, per unordered pair of files, the largest similarity of the block pairs seen. */
  ghost predicate IsBest(seen: seq<(Block, Block)>, fileOf: map<string, File>, best: map<set<File>, real>) {
    && (forall p {:trigger Recorded(fileOf, best, p)} :: p in seen ==> Recorded(fileOf, best, p))
    && (forall u {:trigger Attained(seen, fileOf, best, u)} :: u in best ==> Attained(seen, fileOf, best, u))
  }

  method RecordPair(a: Block, b: Block, fileOf: map<string, File>, best: map<set<File>, real>, ghost seen: seq<(Block, Block)>)
    returns (best': map<set<File>, real>)
    requires a.key in fileOf && b.key in fileOf
    requires IsBest(seen, fileOf, best)
    ensures IsBest(seen + [(a, b)], fileOf, best')
  {
    var pair := {fileOf[a.key], fileOf[b.key]};
    var known := if pair in best then best[pair] else 0.0;
    var similarity := Likeness(a, b);
    best' := best[pair := if known >= similarity then known else similarity];
    ghost var more := seen + [(a, b)];
    forall p | p in more ensures Recorded(fileOf, best', p) {
      if p in seen {
        assert Recorded(fileOf, best, p);
      }
    }
    forall u | u in best' ensures Attained(more, fileOf, best', u) {
      if u == pair && (pair !in best || best[pair] < similarity) {
        assert (a, b) in more;
      } else {
        assert Attained(seen, fileOf, best, u);
        var p :| p in seen && Joins(fileOf, p, u) && Likeness(p.0, p.1) == best[u];
        assert p in more;
      }
    }
  }

  /** The block pairs of `pairs` that reach the threshold, in order. */
  ghost function Hits(docs: map<string, Block>, pairs: seq<Pair>, threshold: real): seq<(Block, Block)>
    requires forall p :: p in pairs ==> p.0 in docs && p.1 in docs
  {
    if pairs == [] then []
    else
      var p := pairs[|pairs| - 1];
      Hits(docs, pairs[..|pairs| - 1], threshold)
      + if Likeness(docs[p.0], docs[p.1]) >= threshold then [(docs[p.0], docs[p.1])] else []
  }

  lemma {:induction false} HitsStep(docs: map<string, Block>, pairs: seq<Pair>, i: nat, threshold: real)
    requires i < |pairs| && forall p :: p in pairs ==> p.0 in docs && p.1 in docs
    ensures var h := (docs[pairs[i].0], docs[pairs[i].1]);
      Hits(docs, pairs[..i + 1], threshold)
      == Hits(docs, pairs[..i], threshold) + if Likeness(h.0, h.1) >= threshold then [h] else []
  {
    assert pairs[..i + 1][..i] == pairs[..i];
    assert pairs[i] in pairs;
  }

  ghost predicate HitLocated(h: (Block, Block), fileOf: map<string, File>) {
    h.0.key in fileOf && h.1.key in fileOf
  }

  ghost predicate HitsLocated(hits: seq<(Block, Block)>, fileOf: map<string, File>) {
    forall i :: 0 <= i < |hits| ==> HitLocated(hits[i], fileOf)
  }

  ghost function LinksOf(hits: seq<(Block, Block)>, fileOf: map<string, File>): Links
    requires HitsLocated(hits, fileOf)
  {
    set h | h in hits :: (fileOf[h.0.key], fileOf[h.1.key])
  }

  lemma {:induction false} HitMember(docs: map<string, Block>, pairs: seq<Pair>, threshold: real, h: (Block, Block))
    requires forall p :: p in pairs ==> p.0 in docs && p.1 in docs
    ensures h in Hits(docs, pairs, threshold)
            <==> exists p :: p in pairs && h == (docs[p.0], docs[p.1]) && Likeness(h.0, h.1) >= threshold
  {
    if pairs != [] {
      var front, last := pairs[..|pairs| - 1], pairs[|pairs| - 1];
      assert pairs == front + [last];
      HitMember(docs, front, threshold, h);
    }
  }

  /** Unites the files of every pair that reaches the threshold and records the best similarity per file pair. */
  method LinkPairs(docs: map<string, Block>, fileOf: map<string, File>, pairs: seq<Pair>, threshold: real, forest: DisjointFiles)
    returns (best: map<set<File>, real>)
    requires forall p :: p in pairs ==> p.0 in docs && p.1 in docs
    requires forall k :: k in docs ==> docs[k].key in fileOf && fileOf[docs[k].key] in forest.files
    requires forest.Valid() && forest.links == {}
    modifies forest
    ensures forest.Valid()
    ensures var hits := Hits(docs, pairs, threshold);
      && HitsLocated(hits, fileOf)
      && forest.links == LinksOf(hits, fileOf) && IsBest(hits, fileOf, best)
  {
    best := map[];
    ghost var hits := [];
    for i := 0 to |pairs|
      invariant forest.Valid()
      invariant hits == Hits(docs, pairs[..i], threshold)
      invariant HitsLocated(hits, fileOf)
      invariant forest.links == LinksOf(hits, fileOf) && IsBest(hits, fileOf, best)
    {
      HitsStep(docs, pairs, i, threshold);
      var left, right := docs[pairs[i].0], docs[pairs[i].1];
      if Likeness(left, right) >= threshold {
        forest.Union(fileOf[left.key], fileOf[right.key]);
        best := RecordPair(left, right, fileOf, best, hits);
        LinksGrow(hits, left, right, fileOf);
        hits := hits + [(left, right)];
      }
    }
    assert pairs[..|pairs|] == pairs;
  }

  lemma {:induction false} LinksGrow(hits: seq<(Block, Block)>, a: Block, b: Block, fileOf: map<string, File>)
    requires HitsLocated(hits, fileOf)
    requires a.key in fileOf && b.key in fileOf
    ensures HitsLocated(hits + [(a, b)], fileOf)
    ensures LinksOf(hits + [(a, b)], fileOf) == LinksOf(hits, fileOf) + {(fileOf[a.key], fileOf[b.key])}
  {
    var more := hits + [(a, b)];
    assert more[|hits|] == (a, b);
    forall l | l in LinksOf(hits, fileOf) + {(fileOf[a.key], fileOf[b.key])} ensures l in LinksOf(more, fileOf) {
      if l in LinksOf(hits, fileOf) {
        var h :| h in hits && l == (fileOf[h.0.key], fileOf[h.1.key]);
        assert h in more;
      } else {
        assert (a, b) in more;
      }
    }
  }

  ghost predicate SimilarIn(blocks: seq<Block>, threshold: real, a: Block, b: Block) {
    a in blocks && b in blocks && Similar(a, b, threshold)
  }

  /** The pair list of a block list, resolved to blocks. */
  ghost predicate IsHitList(blocks: seq<Block>, threshold: real, hits: seq<(Block, Block)>) {
    && (forall h {:trigger SimilarIn(blocks, threshold, h.0, h.1)} :: h in hits ==> SimilarIn(blocks, threshold, h.0, h.1))
    && (forall a, b {:trigger SimilarIn(blocks, threshold, a, b)} ::
          SimilarIn(blocks, threshold, a, b) ==> (a, b) in hits || (b, a) in hits)
  }

  lemma {:induction false} HitsAreHitList(blocks: seq<Block>, pairs: seq<Pair>, threshold: real)
    requires KeysDistinct(blocks) && ListsCandidates(blocks, pairs)
    requires forall p :: p in pairs ==> p.0 in BlockMap(blocks) && p.1 in BlockMap(blocks)
    ensures IsHitList(blocks, threshold, Hits(BlockMap(blocks), pairs, threshold))
  {
    var hits := Hits(BlockMap(blocks), pairs, threshold);
    forall h | h in hits ensures SimilarIn(blocks, threshold, h.0, h.1) {
      HitIsSimilar(blocks, pairs, threshold, h);
    }
    forall a, b | SimilarIn(blocks, threshold, a, b) ensures (a, b) in hits || (b, a) in hits {
      var h := SimilarIsHit(blocks, pairs, threshold, a, b);
    }
  }

  /** The links found are exactly the similar block pairs, in one direction or the other. */
  lemma {:induction false} LinksAreLinked(blocks: seq<Block>, fileOf: map<string, File>, threshold: real,
                                          hits: seq<(Block, Block)>, f: File, g: File)
    requires IsHitList(blocks, threshold, hits)
    requires HitsLocated(hits, fileOf)
    ensures Adjacent(LinksOf(hits, fileOf), f, g) <==> Linked(blocks, fileOf, threshold, f, g)
  {
    if Adjacent(LinksOf(hits, fileOf), f, g) {
      var h :| h in hits && ((fileOf[h.0.key], fileOf[h.1.key]) == (f, g) || (fileOf[h.0.key], fileOf[h.1.key]) == (g, f));
      assert SimilarIn(blocks, threshold, h.0, h.1);
      SimilarIsSymmetric(h.0, h.1, threshold);
      assert SimilarIn(blocks, threshold, h.1, h.0);
      assert InFile(fileOf, h.0, f) || InFile(fileOf, h.1, f);
    }
    if Linked(blocks, fileOf, threshold, f, g) {
      LinkedIsAdjacent(blocks, fileOf, threshold, hits, f, g);
    }
  }

  lemma {:induction false} LinkedIsAdjacent(blocks: seq<Block>, fileOf: map<string, File>, threshold: real,
                                            hits: seq<(Block, Block)>, f: File, g: File)
    requires IsHitList(blocks, threshold, hits) && HitsLocated(hits, fileOf)
    requires Linked(blocks, fileOf, threshold, f, g)
    ensures Adjacent(LinksOf(hits, fileOf), f, g)
  {
    var a, b :| SimilarIn(blocks, threshold, a, b) && InFile(fileOf, a, f) && InFile(fileOf, b, g);
    if (a, b) in hits {
      assert (f, g) in LinksOf(hits, fileOf);
    } else {
      assert (b, a) in hits;
      assert (g, f) in LinksOf(hits, fileOf);
    }
  }

  lemma {:induction false} HitIsSimilar(blocks: seq<Block>, pairs: seq<Pair>, threshold: real, h: (Block, Block))
    requires KeysDistinct(blocks) && ListsCandidates(blocks, pairs)
    requires forall p :: p in pairs ==> p.0 in BlockMap(blocks) && p.1 in BlockMap(blocks)
    requires h in Hits(BlockMap(blocks), pairs, threshold)
    ensures h.0 in blocks && h.1 in blocks && Similar(h.0, h.1, threshold)
  {
    HitMember(BlockMap(blocks), pairs, threshold, h);
    var p :| p in pairs && h == (BlockMap(blocks)[p.0], BlockMap(blocks)[p.1]);
    var a, b := ListedPair(blocks, pairs, p);
    BlockOf(blocks, a);
    BlockOf(blocks, b);
  }

  lemma {:induction false} SimilarIsHit(blocks: seq<Block>, pairs: seq<Pair>, threshold: real, a: Block, b: Block)
    returns (h: (Block, Block))
    requires KeysDistinct(blocks) && ListsCandidates(blocks, pairs)
    requires forall p :: p in pairs ==> p.0 in BlockMap(blocks) && p.1 in BlockMap(blocks)
    requires a in blocks && b in blocks && Similar(a, b, threshold)
    ensures h in Hits(BlockMap(blocks), pairs, threshold) && (h == (a, b) || h == (b, a))
  {
    SimilarIsSymmetric(a, b, threshold);
    BlockOf(blocks, a);
    BlockOf(blocks, b);
    assert {a.key, b.key} in SeenOf(pairs);
    var p := PairOf(pairs, a.key, b.key);
    h := (BlockMap(blocks)[p.0], BlockMap(blocks)[p.1]);
    HitMember(BlockMap(blocks), pairs, threshold, h);
  }

  // ---------------------------------------------------------------------------------------------
  // Groups
  // ---------------------------------------------------------------------------------------------

  ghost function Members(candidates: seq<File>, root: map<File, File>, r: File): seq<File> {
    Filter(candidates, f => f in root && root[f] == r)
  }

  ghost predicate IsGrouping(candidates: seq<File>, root: map<File, File>, order: seq<File>, byRoot: map<File, seq<File>>) {
    && Elements(order) == byRoot.Keys && Distinct(order)
    && (forall r :: r in byRoot ==> byRoot[r] == Members(candidates, root, r) && byRoot[r] != [])
    && (forall f :: f in candidates ==> f in root && root[f] in byRoot)
  }

  lemma {:induction false} NoMembers(candidates: seq<File>, root: map<File, File>, r: File)
    requires forall f :: f in candidates ==> f in root && root[f] != r
    ensures Members(candidates, root, r) == []
  {
    FilterNone(candidates, f => f in root && root[f] == r);
  }

  method AddToGroup(ghost done: seq<File>, ghost root: map<File, File>, file: File, r: File, order: seq<File>, byRoot: map<File, seq<File>>)
    returns (order': seq<File>, byRoot': map<File, seq<File>>)
    requires file in root && root[file] == r
    requires IsGrouping(done, root, order, byRoot)
    ensures IsGrouping(done + [file], root, order', byRoot')
  {
    forall q ensures Members(done + [file], root, q) == Members(done, root, q) + if r == q then [file] else [] {
      FilterAppend(done, file, f => f in root && root[f] == q);
    }
    if r !in byRoot {
      assert Members(done, root, r) == [] by {
        NoMembers(done, root, r);
      }
      assert r !in Elements(order) && Elements(order + [r]) == Elements(order) + {r};
      order', byRoot' := order + [r], byRoot[r := [file]];
    } else {
      order', byRoot' := order, byRoot[r := byRoot[r] + [file]];
    }
  }

  method GroupByRoot(forest: DisjointFiles, candidates: seq<File>) returns (order: seq<File>, byRoot: map<File, seq<File>>)
    requires forest.Valid() && Elements(candidates) == forest.files
    modifies forest
    ensures forest.Valid() && forest.root == old(forest.root) && forest.links == old(forest.links)
    ensures IsGrouping(candidates, forest.root, order, byRoot)
  {
    order, byRoot := [], map[];
    ghost var root := forest.root;
    for i := 0 to |candidates|
      invariant forest.Valid() && forest.root == root && forest.links == old(forest.links)
      invariant IsGrouping(candidates[..i], root, order, byRoot)
    {
      assert candidates[i] in Elements(candidates);
      assert candidates[..i + 1] == candidates[..i] + [candidates[i]];
      var r := forest.Find(candidates[i]);
      order, byRoot := AddToGroup(candidates[..i], root, candidates[i], r, order, byRoot);
    }
    assert candidates[..|candidates|] == candidates;
  }

  /** Non-blank lines of the repeated blocks that lie in `files`. */
  function LinesIn(repeated: seq<string>, fileOf: map<string, File>, blockLines: map<string, nat>, files: set<File>): int {
    if repeated == [] then 0
    else
      var key := repeated[|repeated| - 1];
      LinesIn(repeated[..|repeated| - 1], fileOf, blockLines, files)
      + if key in fileOf && fileOf[key] in files && key in blockLines then blockLines[key] else 0
  }

  method CountLines(repeated: seq<string>, fileOf: map<string, File>, blockLines: map<string, nat>, files: set<File>)
    returns (lines: int)
    ensures lines == LinesIn(repeated, fileOf, blockLines, files)
  {
    lines := 0;
    for i := 0 to |repeated|
      invariant lines == LinesIn(repeated[..i], fileOf, blockLines, files)
    {
      assert repeated[..i + 1][..i] == repeated[..i];
      var key := repeated[i];
      if key in fileOf && fileOf[key] in files && key in blockLines {
        lines := lines + blockLines[key];
      }
    }
    assert repeated[..|repeated|] == repeated;
  }

  // ---------------------------------------------------------------------------------------------
  // What the lines of a group are
  // ---------------------------------------------------------------------------------------------

  function LinesEach(keys: seq<string>, blockLines: map<string, nat>): (r: seq<int>)
    ensures |r| == |keys| && forall i :: 0 <= i < |r| ==> r[i] == if keys[i] in blockLines then blockLines[keys[i]] else 0
  {
    seq(|keys|, i requires 0 <= i < |keys| => if keys[i] in blockLines then blockLines[keys[i]] else 0)
  }

  /** `keys` lists, each once, the repeated blocks that lie in `files`. */
  ghost predicate RepeatedInside(blocks: seq<Block>, fileOf: map<string, File>, threshold: real, files: set<File>, keys: seq<string>) {
    Distinct(keys) && forall k :: k in keys <==> Repeated(blocks, threshold, k) && k in fileOf && fileOf[k] in files
  }

  /** `lines` is the sum of the solid lines of the repeated blocks that lie in `files`, each counted once. */
  ghost predicate CountsBlocks(blocks: seq<Block>, fileOf: map<string, File>, blockLines: map<string, nat>, threshold: real,
                               files: set<File>, lines: int) {
    exists keys :: RepeatedInside(blocks, fileOf, threshold, files, keys) && lines == Sum(LinesEach(keys, blockLines))
  }

  lemma {:induction false} LinesInIsSum(repeated: seq<string>, fileOf: map<string, File>, blockLines: map<string, nat>, files: set<File>)
    ensures LinesIn(repeated, fileOf, blockLines, files)
            == Sum(LinesEach(Filter(repeated, k => k in fileOf && fileOf[k] in files), blockLines))
  {
    var inside := k => k in fileOf && fileOf[k] in files;
    if repeated != [] {
      var front, last := repeated[..|repeated| - 1], repeated[|repeated| - 1];
      LinesInIsSum(front, fileOf, blockLines, files);
      assert repeated == front + [last];
      FilterAppend(front, last, inside);
      var before := Filter(front, inside);
      if inside(last) {
        assert LinesEach(before + [last], blockLines) == LinesEach(before, blockLines) + LinesEach([last], blockLines);
        SumAppend(LinesEach(before, blockLines), LinesEach([last], blockLines));
        assert LinesEach([last], blockLines)[1..] == [];
      } else {
        assert before + [] == before;
      }
    }
  }

  lemma {:induction false} LinesInCounts(blocks: seq<Block>, fileOf: map<string, File>, blockLines: map<string, nat>, threshold: real,
                                         repeated: seq<string>, files: set<File>)
    requires Distinct(repeated) && forall k :: k in repeated <==> Repeated(blocks, threshold, k)
    ensures CountsBlocks(blocks, fileOf, blockLines, threshold, files, LinesIn(repeated, fileOf, blockLines, files))
  {
    var inside := k => k in fileOf && fileOf[k] in files;
    LinesInIsSum(repeated, fileOf, blockLines, files);
    FilterDistinct(repeated, inside);
    assert RepeatedInside(blocks, fileOf, threshold, files, Filter(repeated, inside));
  }

  /** The order of the blocks does not matter: the number is determined. */
  lemma {:induction false} SumsAgree(a: seq<string>, b: seq<string>, blockLines: map<string, nat>)
    requires Distinct(a) && Distinct(b) && forall k :: k in a <==> k in b
    ensures Sum(LinesEach(a, blockLines)) == Sum(LinesEach(b, blockLines))
    decreases |a|
  {
    EmptyTogether(a, b);
    if a != [] {
      var n := |a| - 1;
      assert a[n] in b;
      var j :| 0 <= j < |b| && b[j] == a[n];
      Without(a, n);
      Without(b, j);
      SumsAgree(a[..n] + a[n + 1..], b[..j] + b[j + 1..], blockLines);
      TakeOut(a, n, blockLines);
      TakeOut(b, j, blockLines);
    }
  }

  lemma {:induction false} Without(keys: seq<string>, j: nat)
    requires Distinct(keys) && j < |keys|
    ensures var rest := keys[..j] + keys[j + 1..];
      |rest| == |keys| - 1 && Distinct(rest) && forall k :: k in rest <==> k in keys && k != keys[j]
  {
    var rest := keys[..j] + keys[j + 1..];
    forall k | k in keys && k != keys[j] ensures k in rest {
      var i :| 0 <= i < |keys| && keys[i] == k;
      assert if i < j then rest[i] == k else rest[i - 1] == k;
    }
  }

  lemma {:induction false} TakeOut(keys: seq<string>, j: nat, blockLines: map<string, nat>)
    requires j < |keys|
    ensures Sum(LinesEach(keys, blockLines))
            == LinesEach([keys[j]], blockLines)[0] + Sum(LinesEach(keys[..j] + keys[j + 1..], blockLines))
  {
    var head, tail := LinesEach(keys[..j], blockLines), LinesEach(keys[j + 1..], blockLines);
    var n := LinesEach([keys[j]], blockLines)[0];
    assert LinesEach(keys, blockLines) == head + ([n] + tail);
    assert LinesEach(keys[..j] + keys[j + 1..], blockLines) == head + tail;
    SumWithout(head, n, tail);
  }

  lemma {:induction false} SumWithout(head: seq<int>, n: int, tail: seq<int>)
    ensures Sum(head + ([n] + tail)) == n + Sum(head + tail)
  {
    SumAppend(head, [n] + tail);
    SumAppend(head, tail);
    assert ([n] + tail)[1..] == tail;
  }

  lemma {:induction false} CountsAreUnique(blocks: seq<Block>, fileOf: map<string, File>, blockLines: map<string, nat>, threshold: real,
                                           files: set<File>, m: int, n: int)
    requires CountsBlocks(blocks, fileOf, blockLines, threshold, files, m)
    requires CountsBlocks(blocks, fileOf, blockLines, threshold, files, n)
    ensures m == n
  {
    var a :| RepeatedInside(blocks, fileOf, threshold, files, a) && m == Sum(LinesEach(a, blockLines));
    var b :| RepeatedInside(blocks, fileOf, threshold, files, b) && n == Sum(LinesEach(b, blockLines));
    SumsAgree(a, b, blockLines);
  }

  /** Only the repeated blocks in the files matter: line numbers that agree on those give the same count. */
  lemma {:induction false} OthersDoNotCount(blocks: seq<Block>, fileOf: map<string, File>, one: map<string, nat>, other: map<string, nat>,
                                            threshold: real, files: set<File>, lines: int)
    requires forall k :: Repeated(blocks, threshold, k) && k in fileOf && fileOf[k] in files ==>
               (k in one <==> k in other) && (k in one ==> one[k] == other[k])
    requires CountsBlocks(blocks, fileOf, one, threshold, files, lines)
    ensures CountsBlocks(blocks, fileOf, other, threshold, files, lines)
  {
    var keys :| RepeatedInside(blocks, fileOf, threshold, files, keys) && lines == Sum(LinesEach(keys, one));
    assert forall i :: 0 <= i < |keys| ==> keys[i] in keys;
    assert LinesEach(keys, one) == LinesEach(keys, other);
  }

  /** The counts of disjoint sets of files add up. */
  lemma {:induction false} CountsAdd(blocks: seq<Block>, fileOf: map<string, File>, blockLines: map<string, nat>, threshold: real,
                                     some: set<File>, others: set<File>, m: int, n: int)
    requires some !! others
    requires CountsBlocks(blocks, fileOf, blockLines, threshold, some, m)
    requires CountsBlocks(blocks, fileOf, blockLines, threshold, others, n)
    ensures CountsBlocks(blocks, fileOf, blockLines, threshold, some + others, m + n)
  {
    var a :| RepeatedInside(blocks, fileOf, threshold, some, a) && m == Sum(LinesEach(a, blockLines));
    var b :| RepeatedInside(blocks, fileOf, threshold, others, b) && n == Sum(LinesEach(b, blockLines));
    SumOfBoth(a, b, blockLines);
    RepeatedInBoth(blocks, fileOf, threshold, some, others, a, b);
  }

  lemma {:induction false} SumOfBoth(a: seq<string>, b: seq<string>, blockLines: map<string, nat>)
    ensures Sum(LinesEach(a + b, blockLines)) == Sum(LinesEach(a, blockLines)) + Sum(LinesEach(b, blockLines))
  {
    assert LinesEach(a + b, blockLines) == LinesEach(a, blockLines) + LinesEach(b, blockLines);
    SumAppend(LinesEach(a, blockLines), LinesEach(b, blockLines));
  }

  lemma {:induction false} RepeatedInBoth(blocks: seq<Block>, fileOf: map<string, File>, threshold: real, some: set<File>, others: set<File>,
                                          a: seq<string>, b: seq<string>)
    requires some !! others
    requires RepeatedInside(blocks, fileOf, threshold, some, a) && RepeatedInside(blocks, fileOf, threshold, others, b)
    ensures RepeatedInside(blocks, fileOf, threshold, some + others, a + b)
  {
    forall i, j | 0 <= i < |a| && 0 <= j < |b| ensures a[i] != b[j] {
      assert a[i] in a && b[j] in b;
    }
  }

  function GroupedFiles(groups: seq<Group>): set<File> {
    set g, f | g in groups && f in g.files :: f
  }

  function GroupLines(groups: seq<Group>): (r: seq<int>)
    ensures |r| == |groups| && forall i :: 0 <= i < |r| ==> r[i] == groups[i].repeatedBlockLines
  {
    seq(|groups|, i requires 0 <= i < |groups| => groups[i].repeatedBlockLines)
  }

  ghost predicate GroupsAreDisjoint(groups: seq<Group>) {
    forall i, j, f :: 0 <= i < j < |groups| && f in groups[i].files ==> f !in groups[j].files
  }

  /** Over all groups the lines add up to those of the repeated blocks in grouped files, each once. */
  lemma {:induction false} GroupLinesAddUp(groups: seq<Group>, blocks: seq<Block>, fileOf: map<string, File>,
                                           blockLines: map<string, nat>, threshold: real)
    requires GroupsAreDisjoint(groups)
    requires forall g :: g in groups ==> CountsBlocks(blocks, fileOf, blockLines, threshold, Elements(g.files), g.repeatedBlockLines)
    ensures CountsBlocks(blocks, fileOf, blockLines, threshold, GroupedFiles(groups), Sum(GroupLines(groups)))
  {
    if groups == [] {
      assert RepeatedInside(blocks, fileOf, threshold, GroupedFiles(groups), []);
      assert LinesEach([], blockLines) == [];
    } else {
      var front, last := groups[..|groups| - 1], groups[|groups| - 1];
      GroupLinesAddUp(front, blocks, fileOf, blockLines, threshold);
      OneMoreGroup(front, last);
      assert groups == front + [last];
      CountsAdd(blocks, fileOf, blockLines, threshold, GroupedFiles(front), Elements(last.files), Sum(GroupLines(front)),
                last.repeatedBlockLines);
    }
  }

  lemma {:induction false} OneMoreGroup(front: seq<Group>, last: Group)
    requires GroupsAreDisjoint(front + [last])
    ensures GroupedFiles(front) !! Elements(last.files)
    ensures GroupedFiles(front + [last]) == GroupedFiles(front) + Elements(last.files)
    ensures Sum(GroupLines(front + [last])) == Sum(GroupLines(front)) + last.repeatedBlockLines
  {
    var groups := front + [last];
    assert GroupLines(groups) == GroupLines(front) + [last.repeatedBlockLines];
    SumAppend(GroupLines(front), [last.repeatedBlockLines]);
    assert [last.repeatedBlockLines][1..] == [];
    forall f | f in GroupedFiles(front) ensures f !in last.files {
      var g :| g in front && f in g.files;
      var i :| 0 <= i < |front| && front[i] == g;
      assert groups[i] == g && groups[|front|] == last;
    }
  }

  /** The largest recorded similarity between files of the group, 0 if there is none. */
  method BestWithin(best: map<set<File>, real>, files: set<File>) returns (m: real)
    requires forall u :: u in best ==> best[u] >= 0.0
    ensures forall u :: u in best && u <= files ==> best[u] <= m
    ensures m == 0.0 || exists u :: u in best && u <= files && best[u] == m
    ensures 0.0 <= m
  {
    m := 0.0;
    var rest := best.Keys;
    while rest != {}
      invariant rest <= best.Keys && 0.0 <= m
      invariant forall u :: u in best && u !in rest && u <= files ==> best[u] <= m
      invariant m == 0.0 || exists u :: u in best && u <= files && best[u] == m
      decreases rest
    {
      var u :| u in rest;
      rest := rest - {u};
      if u <= files && best[u] > m {
        m := best[u];
      }
    }
  }

  ghost predicate FilesConnected(blocks: seq<Block>, fileOf: map<string, File>, threshold: real, f: File, g: File) {
    exists p: seq<File> :: LinkPath(blocks, fileOf, threshold, p) && p[0] == f && p[|p| - 1] == g
  }

  ghost predicate LinkPath(blocks: seq<Block>, fileOf: map<string, File>, threshold: real, p: seq<File>) {
    p != [] && forall i :: 0 <= i < |p| - 1 ==> Linked(blocks, fileOf, threshold, p[i], p[i + 1])
  }

  lemma {:induction false} ConnectedIs(blocks: seq<Block>, fileOf: map<string, File>, threshold: real, links: Links, f: File, g: File)
    requires forall a, b :: Adjacent(links, a, b) <==> Linked(blocks, fileOf, threshold, a, b)
    ensures Connected(links, f, g) <==> FilesConnected(blocks, fileOf, threshold, f, g)
  {
    forall p ensures IsPath(links, p) <==> LinkPath(blocks, fileOf, threshold, p) {
      if IsPath(links, p) {
        forall i | 0 <= i < |p| - 1 ensures Linked(blocks, fileOf, threshold, p[i], p[i + 1]) {
          assert Adjacent(links, p[i], p[i + 1]);
        }
      }
      if LinkPath(blocks, fileOf, threshold, p) {
        forall i | 0 <= i < |p| - 1 ensures Adjacent(links, p[i], p[i + 1]) {
          assert Linked(blocks, fileOf, threshold, p[i], p[i + 1]);
        }
      }
    }
    if Connected(links, f, g) {
      var p :| IsPath(links, p) && p[0] == f && p[|p| - 1] == g;
      assert LinkPath(blocks, fileOf, threshold, p);
    }
    if FilesConnected(blocks, fileOf, threshold, f, g) {
      var p :| LinkPath(blocks, fileOf, threshold, p) && p[0] == f && p[|p| - 1] == g;
      assert IsPath(links, p);
    }
  }

  // ---------------------------------------------------------------------------------------------
  // The result
  // ---------------------------------------------------------------------------------------------

  /** A similar block pair whose files both belong to `files`. */
  ghost predicate SimilarInside(blocks: seq<Block>, fileOf: map<string, File>, threshold: real, files: set<File>, a: Block, b: Block) {
    SimilarIn(blocks, threshold, a, b) && a.key in fileOf && b.key in fileOf && {fileOf[a.key], fileOf[b.key]} <= files
  }

  /** The group's similarity is the largest over the similar block pairs inside the group. */
  ghost predicate IsGroupSimilarity(blocks: seq<Block>, fileOf: map<string, File>, threshold: real, files: set<File>, m: real) {
    && (forall a, b :: SimilarInside(blocks, fileOf, threshold, files, a, b) ==> Likeness(a, b) <= m)
    && (exists a, b :: SimilarInside(blocks, fileOf, threshold, files, a, b) && Likeness(a, b) == m)
  }

  /** The groups are exactly the connected components with at least two files. */
  ghost predicate AreComponents(candidates: seq<File>, blocks: seq<Block>, fileOf: map<string, File>, threshold: real, groups: seq<Group>) {
    && (forall g :: g in groups ==> |g.files| >= 2 && Distinct(g.files))
    && (forall g, f, h :: g in groups && f in g.files ==>
          (h in g.files <==> h in candidates && FilesConnected(blocks, fileOf, threshold, f, h)))
    && (forall f, h :: f in candidates && h in candidates && f != h && FilesConnected(blocks, fileOf, threshold, f, h) ==>
          exists g :: g in groups && f in g.files && h in g.files)
    && (forall i, j, f :: 0 <= i < j < |groups| && f in groups[i].files ==> f !in groups[j].files)
  }

  ghost predicate IsBestWithin(best: map<set<File>, real>, files: set<File>, m: real) {
    && 0.0 <= m
    && (forall u :: u in best && u <= files ==> best[u] <= m)
    && (m == 0.0 || exists u :: u in best && u <= files && best[u] == m)
  }

  /** Group `g` collects the files below root `r`. */
  ghost predicate IsGroupOf(g: Group, files: seq<File>, repeated: seq<string>, fileOf: map<string, File>,
                            blockLines: map<string, nat>, best: map<set<File>, real>) {
    && g.files == files && |files| >= 2
    && g.repeatedBlockLines == LinesIn(repeated, fileOf, blockLines, Elements(files))
    && IsBestWithin(best, Elements(files), g.maxSimilarity)
  }

  method AssembleGroups(order: seq<File>, byRoot: map<File, seq<File>>, repeated: seq<string>, fileOf: map<string, File>,
                        blockLines: map<string, nat>, best: map<set<File>, real>)
    returns (groups: seq<Group>, ghost roots: seq<File>)
    requires Elements(order) == byRoot.Keys && Distinct(order)
    requires forall u :: u in best ==> best[u] >= 0.0
    ensures |roots| == |groups| && Distinct(roots)
    ensures forall r :: r in roots <==> r in byRoot && |byRoot[r]| >= 2
    ensures forall i :: 0 <= i < |groups| ==>
              roots[i] in byRoot && IsGroupOf(groups[i], byRoot[roots[i]], repeated, fileOf, blockLines, best)
  {
    groups, roots := [], [];
    for i := 0 to |order|
      invariant |roots| == |groups| && Distinct(roots)
      invariant forall r :: r in roots <==> r in order[..i] && r in byRoot && |byRoot[r]| >= 2
      invariant forall j :: 0 <= j < |groups| ==>
                roots[j] in byRoot && IsGroupOf(groups[j], byRoot[roots[j]], repeated, fileOf, blockLines, best)
    {
      assert order[i] in Elements(order);
      assert order[..i + 1] == order[..i] + [order[i]];
      assert order[i] !in order[..i];
      var files := byRoot[order[i]];
      if |files| >= 2 {
        var lines := CountLines(repeated, fileOf, blockLines, Elements(files));
        var similarity := BestWithin(best, Elements(files));
        groups, roots := groups + [Group(files, lines, similarity)], roots + [order[i]];
      }
    }
    assert forall r :: r in byRoot ==> r in Elements(order);
    assert order[..|order|] == order;
  }

  lemma {:induction false} ClassMembers(candidates: seq<File>, root: map<File, File>, order: seq<File>, byRoot: map<File, seq<File>>, r: File)
    requires Distinct(candidates) && root.Keys == Elements(candidates)
    requires IsGrouping(candidates, root, order, byRoot) && r in byRoot
    ensures Distinct(byRoot[r])
    ensures forall f :: f in byRoot[r] <==> f in candidates && root[f] == r
  {
    FilterDistinct(candidates, f => f in root && root[f] == r);
    assert forall f :: f in candidates ==> f in Elements(candidates);
  }

  lemma {:induction false} RootsReadAsPaths(candidates: seq<File>, root: map<File, File>, links: Links,
                                            blocks: seq<Block>, fileOf: map<string, File>, threshold: real, f: File, h: File)
    requires root.Keys == Elements(candidates) && RootsAreComponents(Elements(candidates), root, links)
    requires forall a, b :: Adjacent(links, a, b) <==> Linked(blocks, fileOf, threshold, a, b)
    requires f in candidates && h in candidates
    ensures f in root && h in root && (FilesConnected(blocks, fileOf, threshold, f, h) <==> root[f] == root[h])
  {
    assert f in Elements(candidates) && h in Elements(candidates);
    SameRootIffConnected(Elements(candidates), root, links, f, h);
    ConnectedIs(blocks, fileOf, threshold, links, f, h);
  }

  /** Group `g` is the class of root `r`. */
  ghost predicate IsClass(candidates: seq<File>, root: map<File, File>, g: Group, r: File)
    requires root.Keys == Elements(candidates)
  {
    |g.files| >= 2 && Distinct(g.files) && forall f :: f in g.files <==> f in root && root[f] == r
  }

  ghost predicate PathsAreRoots(candidates: seq<File>, blocks: seq<Block>, fileOf: map<string, File>, threshold: real, root: map<File, File>)
    requires root.Keys == Elements(candidates)
  {
    forall f, h {:trigger FilesConnected(blocks, fileOf, threshold, f, h)} :: f in root && h in root ==>
      (FilesConnected(blocks, fileOf, threshold, f, h) <==> root[f] == root[h])
  }

  /** Root classes of size two and more, read as components. */
  lemma {:induction false} ClassesAreComponents(candidates: seq<File>, root: map<File, File>, order: seq<File>, byRoot: map<File, seq<File>>,
                                                groups: seq<Group>, roots: seq<File>,
                                                blocks: seq<Block>, fileOf: map<string, File>, threshold: real)
    requires Distinct(candidates) && root.Keys == Elements(candidates)
    requires IsGrouping(candidates, root, order, byRoot)
    requires |roots| == |groups| && Distinct(roots)
    requires forall r :: r in roots <==> r in byRoot && |byRoot[r]| >= 2
    requires forall i :: 0 <= i < |groups| ==> roots[i] in byRoot && groups[i].files == byRoot[roots[i]]
    requires PathsAreRoots(candidates, blocks, fileOf, threshold, root)
    ensures AreComponents(candidates, blocks, fileOf, threshold, groups)
  {
    assert forall f :: f in candidates <==> f in root by {
      assert forall f :: f in candidates <==> f in Elements(candidates);
    }
    forall i | 0 <= i < |groups| ensures IsClass(candidates, root, groups[i], roots[i]) {
      assert roots[i] in roots;
      ClassMembers(candidates, root, order, byRoot, roots[i]);
    }
    forall r | r in byRoot && |byRoot[r]| >= 2 ensures exists i :: 0 <= i < |roots| && roots[i] == r {
      assert r in roots;
    }
    forall f, h | f in root && h in root && f != h && root[f] == root[h] ensures root[f] in roots {
      ClassMembers(candidates, root, order, byRoot, root[f]);
      PairInClass(byRoot[root[f]], f, h);
    }
    RootClasses(candidates, root, groups, roots, blocks, fileOf, threshold);
  }

  lemma {:induction false} PairInClass(files: seq<File>, f: File, h: File)
    requires f in files && h in files && f != h
    ensures |files| >= 2
  {
  }

  lemma {:induction false} RootClasses(candidates: seq<File>, root: map<File, File>, groups: seq<Group>, roots: seq<File>,
                                       blocks: seq<Block>, fileOf: map<string, File>, threshold: real)
    requires root.Keys == Elements(candidates) && forall f :: f in candidates <==> f in root
    requires |roots| == |groups| && Distinct(roots)
    requires forall i :: 0 <= i < |groups| ==> IsClass(candidates, root, groups[i], roots[i])
    requires forall f, h :: f in root && h in root && f != h && root[f] == root[h] ==> root[f] in roots
    requires PathsAreRoots(candidates, blocks, fileOf, threshold, root)
    ensures AreComponents(candidates, blocks, fileOf, threshold, groups)
  {
    forall g, f, h | g in groups && f in g.files
      ensures h in g.files <==> h in candidates && FilesConnected(blocks, fileOf, threshold, f, h)
    {
      var i :| 0 <= i < |groups| && groups[i] == g;
    }
    forall f, h | f in candidates && h in candidates && f != h && FilesConnected(blocks, fileOf, threshold, f, h)
      ensures exists g :: g in groups && f in g.files && h in g.files
    {
      var i :| 0 <= i < |roots| && roots[i] == root[f];
      assert groups[i] in groups;
    }
  }

  lemma {:induction false} BestIsGroupSimilarity(blocks: seq<Block>, fileOf: map<string, File>, threshold: real, files: set<File>, m: real,
                                                 hits: seq<(Block, Block)>, best: map<set<File>, real>, a: Block, b: Block)
    requires IsHitList(blocks, threshold, hits) && HitsLocated(hits, fileOf) && IsBest(hits, fileOf, best)
    requires IsBestWithin(best, files, m)
    requires SimilarInside(blocks, fileOf, threshold, files, a, b)
    ensures m >= threshold && IsGroupSimilarity(blocks, fileOf, threshold, files, m)
  {
    forall c, d | SimilarInside(blocks, fileOf, threshold, files, c, d) ensures threshold <= Likeness(c, d) <= m {
      var u := InsideIsRecorded(blocks, fileOf, threshold, files, hits, best, c, d);
    }
    var u := InsideIsRecorded(blocks, fileOf, threshold, files, hits, best, a, b);
    MaximumIsAttained(blocks, fileOf, threshold, files, m, hits, best, u);
  }

  lemma {:induction false} InsideIsRecorded(blocks: seq<Block>, fileOf: map<string, File>, threshold: real, files: set<File>,
                                            hits: seq<(Block, Block)>, best: map<set<File>, real>, a: Block, b: Block)
    returns (u: set<File>)
    requires IsHitList(blocks, threshold, hits) && HitsLocated(hits, fileOf) && IsBest(hits, fileOf, best)
    requires SimilarInside(blocks, fileOf, threshold, files, a, b)
    ensures u in best && u <= files && threshold <= Likeness(a, b) <= best[u] && 0.0 <= best[u]
  {
    SimilarityBounds(a.signature, b.signature);
    u := {fileOf[a.key], fileOf[b.key]};
    assert {fileOf[b.key], fileOf[a.key]} == u;
    if (a, b) in hits {
      assert Recorded(fileOf, best, (a, b));
    } else {
      assert Recorded(fileOf, best, (b, a));
    }
  }

  lemma {:induction false} MaximumIsAttained(blocks: seq<Block>, fileOf: map<string, File>, threshold: real, files: set<File>, m: real,
                                             hits: seq<(Block, Block)>, best: map<set<File>, real>, w: set<File>)
    requires IsHitList(blocks, threshold, hits) && HitsLocated(hits, fileOf) && IsBest(hits, fileOf, best)
    requires IsBestWithin(best, files, m)
    requires w in best && w <= files && 0.0 <= best[w]
    ensures exists a, b :: SimilarInside(blocks, fileOf, threshold, files, a, b) && Likeness(a, b) == m
  {
    var u :| u in best && u <= files && best[u] == m;
    assert Attained(hits, fileOf, best, u);
    var p :| p in hits && Joins(fileOf, p, u) && Likeness(p.0, p.1) == best[u];
    assert SimilarIn(blocks, threshold, p.0, p.1);
    assert SimilarInside(blocks, fileOf, threshold, files, p.0, p.1);
  }

  /** A group of two connected files contains a similar block pair. */
  lemma {:induction false} GroupHasPair(candidates: seq<File>, blocks: seq<Block>, fileOf: map<string, File>, threshold: real,
                                        links: Links, groups: seq<Group>, g: Group) returns (a: Block, b: Block)
    requires AreComponents(candidates, blocks, fileOf, threshold, groups) && g in groups
    requires forall x, y :: Adjacent(links, x, y) <==> Linked(blocks, fileOf, threshold, x, y)
    requires forall x, y :: Adjacent(links, x, y) ==> x in candidates && y in candidates
    ensures SimilarInside(blocks, fileOf, threshold, Elements(g.files), a, b)
  {
    var f, h := g.files[0], g.files[1];
    assert f in g.files && h in g.files;
    ConnectedIs(blocks, fileOf, threshold, links, f, h);
    var p :| IsPath(links, p) && p[0] == f && p[|p| - 1] == h;
    var x, y := CrossingLink(links, p);
    assert x in g.files && y in g.files by {
      ConnectedIs(blocks, fileOf, threshold, links, f, x);
      ConnectedIs(blocks, fileOf, threshold, links, f, y);
    }
    a, b :| SimilarIn(blocks, threshold, a, b) && InFile(fileOf, a, x) && InFile(fileOf, b, y);
  }

  /** The groups before the final sort and cut. */
  method SimilarityGroups(candidates: seq<File>, blocks: seq<Block>, fileOf: map<string, File>, blockLines: map<string, nat>, threshold: real)
    returns (groups: seq<Group>, repeated: seq<string>)
    requires Distinct(candidates) && KeysDistinct(blocks) && Located(blocks, fileOf, Elements(candidates))
    ensures AreComponents(candidates, blocks, fileOf, threshold, groups)
    ensures forall g :: g in groups ==> g.maxSimilarity >= threshold
    ensures forall g :: g in groups ==> IsGroupSimilarity(blocks, fileOf, threshold, Elements(g.files), g.maxSimilarity)
    ensures Distinct(repeated) && forall k :: k in repeated <==> Repeated(blocks, threshold, k)
    ensures forall g :: g in groups ==> CountsBlocks(blocks, fileOf, blockLines, threshold, Elements(g.files), g.repeatedBlockLines)
    ensures CountsBlocks(blocks, fileOf, blockLines, threshold, GroupedFiles(groups), Sum(GroupLines(groups)))
  {
    repeated := RepeatedBlocksOf(blocks, threshold);
    ghost var root, links, hits, order, byRoot, roots;
    ghost var best: map<set<File>, real>;
    groups, root, links, hits, best, order, byRoot, roots := GroupFiles(candidates, blocks, fileOf, blockLines, threshold, repeated);
    forall f, h {
      LinksAreLinked(blocks, fileOf, threshold, hits, f, h);
    }
    forall f, h | f in root && h in root
      ensures FilesConnected(blocks, fileOf, threshold, f, h) <==> root[f] == root[h]
    {
      assert f in Elements(candidates) && h in Elements(candidates);
      RootsReadAsPaths(candidates, root, links, blocks, fileOf, threshold, f, h);
    }
    ClassesAreComponents(candidates, root, order, byRoot, groups, roots, blocks, fileOf, threshold);
    forall g | g in groups
      ensures g.maxSimilarity >= threshold
      ensures IsGroupSimilarity(blocks, fileOf, threshold, Elements(g.files), g.maxSimilarity)
    {
      var a, b := GroupHasPair(candidates, blocks, fileOf, threshold, links, groups, g);
      BestIsGroupSimilarity(blocks, fileOf, threshold, Elements(g.files), g.maxSimilarity, hits, best, a, b);
    }
    forall g | g in groups ensures CountsBlocks(blocks, fileOf, blockLines, threshold, Elements(g.files), g.repeatedBlockLines) {
      LinesInCounts(blocks, fileOf, blockLines, threshold, repeated, Elements(g.files));
    }
    GroupLinesAddUp(groups, blocks, fileOf, blockLines, threshold);
  }

  /** Union, grouping and assembly, with the intermediate state handed out as ghost results. */
  method GroupFiles(candidates: seq<File>, blocks: seq<Block>, fileOf: map<string, File>, blockLines: map<string, nat>, threshold: real,
                    repeated: seq<string>)
    returns (groups: seq<Group>, ghost root: map<File, File>, ghost links: Links, ghost hits: seq<(Block, Block)>,
             ghost best: map<set<File>, real>, ghost order: seq<File>, ghost byRoot: map<File, seq<File>>, ghost roots: seq<File>)
    requires Distinct(candidates) && KeysDistinct(blocks) && Located(blocks, fileOf, Elements(candidates))
    ensures root.Keys == Elements(candidates) && RootsAreComponents(Elements(candidates), root, links)
    ensures IsHitList(blocks, threshold, hits) && HitsLocated(hits, fileOf) && links == LinksOf(hits, fileOf)
    ensures IsBest(hits, fileOf, best)
    ensures IsGrouping(candidates, root, order, byRoot)
    ensures |roots| == |groups| && Distinct(roots)
    ensures forall r :: r in roots <==> r in byRoot && |byRoot[r]| >= 2
    ensures forall i :: 0 <= i < |groups| ==>
              roots[i] in byRoot && IsGroupOf(groups[i], byRoot[roots[i]], repeated, fileOf, blockLines, best)
  {
    var forest := new DisjointFiles(Elements(candidates));
    var docs := BlockMap(blocks);
    var pairs := PairsOfBlocks(blocks);
    forall p | p in pairs ensures p.0 in docs && p.1 in docs {
      var a, b := ListedPair(blocks, pairs, p);
    }
    var found := LinkPairs(docs, fileOf, pairs, threshold, forest);
    HitsAreHitList(blocks, pairs, threshold);
    hits, best := Hits(docs, pairs, threshold), found;
    NonNegative(hits, fileOf, best);
    var roster, classes := GroupByRoot(forest, candidates);
    order, byRoot, root, links := roster, classes, forest.root, forest.links;
    groups, roots := AssembleGroups(roster, classes, repeated, fileOf, blockLines, found);
  }

  lemma {:induction false} NonNegative(hits: seq<(Block, Block)>, fileOf: map<string, File>, best: map<set<File>, real>)
    requires IsBest(hits, fileOf, best)
    ensures forall u :: u in best ==> best[u] >= 0.0
  {
    forall u | u in best ensures best[u] >= 0.0 {
      assert Attained(hits, fileOf, best, u);
      var p :| p in hits && Joins(fileOf, p, u) && Likeness(p.0, p.1) == best[u];
      SimilarityBounds(p.0.signature, p.1.signature);
    }
  }
}
