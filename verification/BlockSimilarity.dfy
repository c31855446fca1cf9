/** Near-duplicate blocks: MinHash signatures are split into bands, blocks sharing a band fall into
    the same bucket, and every pair inside a bucket is compared once. */
module BlockSimilarity {
  import opened Seqs

  const MINHASH_SIZE := 64
  const BAND_SIZE := 8

  type Signature = seq<nat>

  datatype BucketKey = BucketKey(band: nat, values: seq<nat>)

  datatype Block = Block(key: string, signature: Signature)

  function Clamped(s: Signature, lo: nat, hi: nat): Signature
    requires lo <= hi
  {
    s[if lo <= |s| then lo else |s|..if hi <= |s| then hi else |s|]
  }

  function BucketKeys(s: Signature): (r: seq<BucketKey>)
    ensures Distinct(r)
  {
    seq(MINHASH_SIZE / BAND_SIZE, band requires 0 <= band =>
      BucketKey(band, Clamped(s, band * BAND_SIZE, (band + 1) * BAND_SIZE)))
  }

  function Matches(left: Signature, right: Signature): nat
    requires |left| == |right|
  {
    if left == [] then 0
    else (if left[0] == right[0] then 1 else 0) + Matches(left[1..], right[1..])
  }

  /** The share of equal positions over the common length. */
  function MinHashSimilarity(left: Signature, right: Signature): (r: real)
    ensures 0.0 <= r
  {
    var n := if |left| <= |right| then |left| else |right|;
    if n == 0 then 0.0 else Matches(left[..n], right[..n]) as real / n as real
  }

  lemma {:induction false} MatchesBounds(left: Signature, right: Signature)
    requires |left| == |right|
    ensures Matches(left, right) == Matches(right, left) <= |left|
    ensures Matches(left, right) == |left| <==> left == right
  {
    if left != [] {
      MatchesBounds(left[1..], right[1..]);
      assert left == [left[0]] + left[1..] && right == [right[0]] + right[1..];
    }
  }

  /** Similarity is symmetric and at most 1, and it is 1 exactly on agreement over the common length. */
  lemma {:induction false} SimilarityBounds(left: Signature, right: Signature)
    ensures MinHashSimilarity(left, right) == MinHashSimilarity(right, left) <= 1.0
    ensures var n := if |left| <= |right| then |left| else |right|;
      n > 0 ==> (MinHashSimilarity(left, right) == 1.0 <==> left[..n] == right[..n])
  {
    var n := if |left| <= |right| then |left| else |right|;
    if n > 0 {
      MatchesBounds(left[..n], right[..n]);
      ShareOfOne(Matches(left[..n], right[..n]), n);
    }
  }

  lemma ShareOfOne(m: nat, n: nat)
    requires m <= n && n > 0
    ensures m as real / n as real <= 1.0
    ensures m as real / n as real == 1.0 <==> m == n
  {
    assert (m as real / n as real) * n as real == m as real;
  }

  /** The positions below `n` at which both signatures have the same value. */
  function EqualPositions(left: Signature, right: Signature, n: nat): set<nat>
    requires n <= |left| && n <= |right|
  {
    set i: nat | i < n && left[i] == right[i]
  }

  lemma {:induction false} MatchesAppend(left: Signature, right: Signature, x: nat, y: nat)
    requires |left| == |right|
    ensures Matches(left + [x], right + [y]) == Matches(left, right) + if x == y then 1 else 0
  {
    if left == [] {
      assert left + [x] == [x] && right + [y] == [y] && [x][1..] == [y][1..] == [];
    } else {
      assert (left + [x])[1..] == left[1..] + [x] && (right + [y])[1..] == right[1..] + [y];
      MatchesAppend(left[1..], right[1..], x, y);
    }
  }

  lemma {:induction false} MatchesArePositions(left: Signature, right: Signature, n: nat)
    requires n <= |left| && n <= |right|
    ensures Matches(left[..n], right[..n]) == |EqualPositions(left, right, n)|
  {
    if n > 0 {
      MatchesArePositions(left, right, n - 1);
      MatchesAppend(left[..n - 1], right[..n - 1], left[n - 1], right[n - 1]);
      assert left[..n] == left[..n - 1] + [left[n - 1]] && right[..n] == right[..n - 1] + [right[n - 1]];
      OneMorePosition(left, right, n);
    }
  }

  lemma {:induction false} OneMorePosition(left: Signature, right: Signature, n: nat)
    requires 0 < n <= |left| && n <= |right|
    ensures |EqualPositions(left, right, n)| == |EqualPositions(left, right, n - 1)| + if left[n - 1] == right[n - 1] then 1 else 0
  {
    assert EqualPositions(left, right, n)
           == EqualPositions(left, right, n - 1) + if left[n - 1] == right[n - 1] then {n - 1} else {};
  }

  /** The similarity is the number of equal positions over the length of the shorter signature. */
  lemma {:induction false} SimilarityIsShare(left: Signature, right: Signature)
    ensures var n := if |left| <= |right| then |left| else |right|;
      && MinHashSimilarity(left, right) * n as real == |EqualPositions(left, right, n)| as real
      && (n == 0 ==> MinHashSimilarity(left, right) == 0.0)
  {
    var n := if |left| <= |right| then |left| else |right|;
    MatchesArePositions(left, right, n);
    if n > 0 {
      Product(|EqualPositions(left, right, n)|, n);
    }
  }

  lemma Product(m: nat, n: nat)
    requires n > 0
    ensures (m as real / n as real) * n as real == m as real
  {
  }

  /** The value at a position, none beyond the end. */
  function At(s: Signature, i: nat): Option<nat> {
    if i < |s| then Some(s[i]) else None
  }

  /** The signatures do not differ on the eight positions of a band. */
  ghost predicate AgreeOnBand(s: Signature, t: Signature, band: nat) {
    forall i: nat :: 8 * band <= i < 8 * band + 8 ==> At(s, i) == At(t, i)
  }

  lemma {:induction false} ClampedAt(s: Signature, lo: nat, hi: nat, j: nat)
    requires lo + j < hi
    ensures At(Clamped(s, lo, hi), j) == At(s, lo + j)
  {
  }

  lemma {:induction false} AgreeingSegments(a: Signature, b: Signature, n: nat)
    requires |a| <= n && |b| <= n
    ensures a == b <==> forall j: nat :: j < n ==> At(a, j) == At(b, j)
  {
    if forall j: nat :: j < n ==> At(a, j) == At(b, j) {
      if a != [] {
        assert At(a, |a| - 1) == At(b, |a| - 1);
      }
      if b != [] {
        assert At(a, |b| - 1) == At(b, |b| - 1);
      }
      forall j | 0 <= j < |a| ensures a[j] == b[j] {
        assert At(a, j) == At(b, j);
      }
    }
  }

  lemma {:induction false} BandAgrees(s: Signature, t: Signature, band: nat)
    ensures Clamped(s, band * BAND_SIZE, (band + 1) * BAND_SIZE) == Clamped(t, band * BAND_SIZE, (band + 1) * BAND_SIZE)
            <==> AgreeOnBand(s, t, band)
  {
    var lo, hi := band * BAND_SIZE, (band + 1) * BAND_SIZE;
    var a, b := Clamped(s, lo, hi), Clamped(t, lo, hi);
    AgreeingSegments(a, b, 8);
    forall j: nat | j < 8 ensures At(a, j) == At(s, lo + j) && At(b, j) == At(t, lo + j) {
      ClampedAt(s, lo, hi, j);
      ClampedAt(t, lo, hi, j);
    }
    if a == b {
      forall i: nat | lo <= i < hi ensures At(s, i) == At(t, i) {
        assert At(a, i - lo) == At(b, i - lo);
      }
    }
  }

  lemma {:induction false} BucketOf(s: Signature, k: BucketKey)
    ensures k in BucketKeys(s) <==> k.band < 8 && k.values == Clamped(s, k.band * BAND_SIZE, (k.band + 1) * BAND_SIZE)
  {
    var keys := BucketKeys(s);
    if k.band < 8 && k.values == Clamped(s, k.band * BAND_SIZE, (k.band + 1) * BAND_SIZE) {
      assert keys[k.band] == k;
    }
  }

  /** Two blocks fall into a common bucket exactly when their signatures agree on a whole band of eight
      positions; there are eight bands. */
  lemma {:induction false} SharesBucketIff(a: Block, b: Block)
    ensures SharesBucket(a, b) <==> exists band: nat :: band < 8 && AgreeOnBand(a.signature, b.signature, band)
  {
    if SharesBucket(a, b) {
      var k :| k in BucketKeys(a.signature) && k in BucketKeys(b.signature);
      BucketOf(a.signature, k);
      BucketOf(b.signature, k);
      BandAgrees(a.signature, b.signature, k.band);
    }
    if band: nat :| band < 8 && AgreeOnBand(a.signature, b.signature, band) {
      var k := BucketKey(band, Clamped(a.signature, band * BAND_SIZE, (band + 1) * BAND_SIZE));
      BandAgrees(a.signature, b.signature, band);
      BucketOf(a.signature, k);
      BucketOf(b.signature, k);
    }
  }

  ghost predicate SharesBucket(a: Block, b: Block) {
    exists k :: k in BucketKeys(a.signature) && k in BucketKeys(b.signature)
  }

  /** A candidate pair: two different blocks in a common bucket, similar enough. */
  ghost predicate Similar(a: Block, b: Block, threshold: real) {
    a.key != b.key && SharesBucket(a, b) && MinHashSimilarity(a.signature, b.signature) >= threshold
  }

  ghost predicate KeysDistinct(blocks: seq<Block>) {
    forall i, j :: 0 <= i < j < |blocks| ==> blocks[i].key != blocks[j].key
  }

  ghost predicate InBucket(buckets: map<BucketKey, seq<string>>, k: BucketKey, key: string) {
    k in buckets && key in buckets[k]
  }

  ghost predicate Hashed(blocks: seq<Block>, k: BucketKey, key: string) {
    exists b :: b in blocks && b.key == key && k in BucketKeys(b.signature)
  }

  /** Bucket contents in order of arrival; `order` is the order in which buckets were opened. */
  ghost predicate IsBucketIndex(blocks: seq<Block>, order: seq<BucketKey>, buckets: map<BucketKey, seq<string>>) {
    && Elements(order) == buckets.Keys
    && (forall k :: k in buckets ==> Distinct(buckets[k]))
    && forall k, key :: InBucket(buckets, k, key) <==> Hashed(blocks, k, key)
  }

  method AddBlock(b: Block, order: seq<BucketKey>, buckets: map<BucketKey, seq<string>>)
    returns (order': seq<BucketKey>, buckets': map<BucketKey, seq<string>>)
    requires Elements(order) == buckets.Keys
    requires forall k :: k in buckets ==> Distinct(buckets[k]) && b.key !in buckets[k]
    ensures Elements(order') == buckets'.Keys
    ensures forall k :: k in buckets' ==> Distinct(buckets'[k])
    ensures forall k, key :: InBucket(buckets', k, key)
                             <==> InBucket(buckets, k, key) || (key == b.key && k in BucketKeys(b.signature))
  {
    var keys := BucketKeys(b.signature);
    order', buckets' := order, buckets;
    for i := 0 to |keys|
      invariant Elements(order') == buckets'.Keys
      invariant forall k :: k in buckets' ==> Distinct(buckets'[k])
      invariant forall k :: k !in keys[..i] ==> (k in buckets' <==> k in buckets) && (k in buckets ==> buckets'[k] == buckets[k])
      invariant forall k, key :: InBucket(buckets', k, key) <==> InBucket(buckets, k, key) || (key == b.key && k in keys[..i])
    {
      assert keys[..i + 1] == keys[..i] + [keys[i]];
      assert keys[i] !in keys[..i];
      ghost var before := buckets';
      order', buckets' := FileUnder(keys[i], b.key, order', buckets');
      forall k, key ensures InBucket(buckets', k, key) <==> InBucket(buckets, k, key) || (key == b.key && k in keys[..i + 1]) {
        assert InBucket(before, k, key) <==> InBucket(buckets, k, key) || (key == b.key && k in keys[..i]);
      }
    }
    assert keys[..|keys|] == keys;
  }

  /** Appends a key to one bucket, opening the bucket if need be. */
  method FileUnder(k: BucketKey, key: string, order: seq<BucketKey>, buckets: map<BucketKey, seq<string>>)
    returns (order': seq<BucketKey>, buckets': map<BucketKey, seq<string>>)
    requires Elements(order) == buckets.Keys
    ensures Elements(order') == buckets'.Keys
    ensures buckets' == buckets[k := (if k in buckets then buckets[k] else []) + [key]]
  {
    order' := order;
    if k !in buckets {
      assert Elements(order + [k]) == Elements(order) + {k};
      order' := order + [k];
    }
    buckets' := buckets[k := (if k in buckets then buckets[k] else []) + [key]];
  }

  method IndexBuckets(blocks: seq<Block>) returns (order: seq<BucketKey>, buckets: map<BucketKey, seq<string>>)
    requires KeysDistinct(blocks)
    ensures IsBucketIndex(blocks, order, buckets)
  {
    order, buckets := [], map[];
    for i := 0 to |blocks|
      invariant IsBucketIndex(blocks[..i], order, buckets)
    {
      assert blocks[..i + 1] == blocks[..i] + [blocks[i]];
      forall k | k in buckets ensures blocks[i].key !in buckets[k] {
        assert !Hashed(blocks[..i], k, blocks[i].key);
        assert !InBucket(buckets, k, blocks[i].key);
      }
      ghost var before := buckets;
      order, buckets := AddBlock(blocks[i], order, buckets);
      forall k, key ensures Hashed(blocks[..i + 1], k, key)
                            <==> Hashed(blocks[..i], k, key) || (key == blocks[i].key && k in BucketKeys(blocks[i].signature)) {
      }
    }
    assert blocks[..|blocks|] == blocks;
  }

  // ---------------------------------------------------------------------------------------------
  // Pairs
  // ---------------------------------------------------------------------------------------------

  type Pair = (string, string)

  function Unordered(p: Pair): set<string> {
    {p.0, p.1}
  }

  function SeenOf(pairs: seq<Pair>): set<set<string>> {
    set p | p in pairs :: Unordered(p)
  }

  ghost predicate OncePerPair(pairs: seq<Pair>) {
    forall i, j :: 0 <= i < j < |pairs| ==> Unordered(pairs[i]) != Unordered(pairs[j])
  }

  function PairsWith(x: string, others: seq<string>): set<set<string>> {
    set y | y in others :: {x, y}
  }

  function AllPairs(bucket: seq<string>): set<set<string>> {
    if bucket == [] then {} else PairsWith(bucket[0], bucket[1..]) + AllPairs(bucket[1..])
  }

  lemma {:induction false} AllPairsAre(bucket: seq<string>, a: string, b: string)
    requires Distinct(bucket)
    ensures {a, b} in AllPairs(bucket) <==> a in bucket && b in bucket && a != b
  {
    if bucket != [] {
      AllPairsAre(bucket[1..], a, b);
      assert bucket == [bucket[0]] + bucket[1..];
      assert {a, b} in PairsWith(bucket[0], bucket[1..])
             <==> (a == bucket[0] && b in bucket[1..]) || (b == bucket[0] && a in bucket[1..]) by {
        if {a, b} in PairsWith(bucket[0], bucket[1..]) {
          var y :| y in bucket[1..] && {a, b} == {bucket[0], y};
          assert a in {bucket[0], y} && b in {bucket[0], y} && y in {a, b} && bucket[0] in {a, b};
        }
        assert {a, b} == {b, a};
      }
    }
  }

  /** Appends the pairs of `bucket[i]` with the later members of the bucket that were not seen. */
  method PairRow(bucket: seq<string>, i: nat, pairs: seq<Pair>, seen: set<set<string>>)
    returns (pairs': seq<Pair>, seen': set<set<string>>)
    requires i < |bucket|
    requires seen == SeenOf(pairs) && OncePerPair(pairs)
    ensures seen' == SeenOf(pairs') && OncePerPair(pairs')
    ensures seen' == seen + PairsWith(bucket[i], bucket[i + 1..])
  {
    pairs', seen' := pairs, seen;
    for j := i + 1 to |bucket|
      invariant seen' == SeenOf(pairs') && OncePerPair(pairs')
      invariant seen' == seen + PairsWith(bucket[i], bucket[i + 1..j])
    {
      var pair := (bucket[i], bucket[j]);
      assert bucket[i + 1..j + 1] == bucket[i + 1..j] + [bucket[j]];
      assert PairsWith(bucket[i], bucket[i + 1..j + 1]) == PairsWith(bucket[i], bucket[i + 1..j]) + {Unordered(pair)};
      if Unordered(pair) !in seen' {
        assert forall m :: 0 <= m < |pairs'| ==> Unordered(pairs'[m]) in SeenOf(pairs');
        assert SeenOf(pairs' + [pair]) == SeenOf(pairs') + {Unordered(pair)};
        seen' := seen' + {Unordered(pair)};
        pairs' := pairs' + [pair];
      }
    }
    assert bucket[i + 1..|bucket|] == bucket[i + 1..];
  }

  method PairBucket(bucket: seq<string>, pairs: seq<Pair>, seen: set<set<string>>)
    returns (pairs': seq<Pair>, seen': set<set<string>>)
    requires seen == SeenOf(pairs) && OncePerPair(pairs)
    ensures seen' == SeenOf(pairs') && OncePerPair(pairs')
    ensures seen' == seen + AllPairs(bucket)
  {
    pairs', seen' := pairs, seen;
    if |bucket| < 2 {
      assert bucket != [] ==> bucket[1..] == [] && AllPairs(bucket[1..]) == {};
      return;
    }
    for i := 0 to |bucket|
      invariant seen' == SeenOf(pairs') && OncePerPair(pairs')
      invariant seen' + AllPairs(bucket[i..]) == seen + AllPairs(bucket)
      invariant seen <= seen'
    {
      assert bucket[i..][1..] == bucket[i + 1..];
      pairs', seen' := PairRow(bucket, i, pairs', seen');
    }
    assert bucket[|bucket|..] == [];
  }

  /** Two keys meet in some bucket. */
  ghost predicate Meet(order: seq<BucketKey>, buckets: map<BucketKey, seq<string>>, pair: set<string>) {
    exists k :: k in order && k in buckets && pair in AllPairs(buckets[k])
  }

  /** Every unordered pair that meets in a bucket is listed, and listed once. */
  method CandidatePairs(order: seq<BucketKey>, buckets: map<BucketKey, seq<string>>) returns (pairs: seq<Pair>)
    requires Elements(order) == buckets.Keys
    ensures OncePerPair(pairs)
    ensures forall u :: u in SeenOf(pairs) <==> Meet(order, buckets, u)
  {
    pairs := [];
    var seen := {};
    for i := 0 to |order|
      invariant seen == SeenOf(pairs) && OncePerPair(pairs)
      invariant forall u :: u in seen <==> Meet(order[..i], buckets, u)
    {
      assert order[i] in Elements(order);
      assert order[..i + 1] == order[..i] + [order[i]];
      ghost var before := seen;
      pairs, seen := PairBucket(buckets[order[i]], pairs, seen);
      forall u ensures Meet(order[..i + 1], buckets, u) <==> Meet(order[..i], buckets, u) || u in AllPairs(buckets[order[i]]) {
      }
    }
    assert order[..|order|] == order;
  }

  /** On the index of `blocks`, meeting in a bucket is sharing a band. */
  lemma {:induction false} MeetIsSharing(blocks: seq<Block>, order: seq<BucketKey>, buckets: map<BucketKey, seq<string>>,
                                         a: Block, b: Block)
    requires KeysDistinct(blocks) && IsBucketIndex(blocks, order, buckets)
    requires a in blocks && b in blocks
    ensures Meet(order, buckets, {a.key, b.key}) <==> a.key != b.key && SharesBucket(a, b)
  {
    if Meet(order, buckets, {a.key, b.key}) {
      var k :| k in order && k in buckets && {a.key, b.key} in AllPairs(buckets[k]);
      AllPairsAre(buckets[k], a.key, b.key);
      assert InBucket(buckets, k, a.key) && InBucket(buckets, k, b.key);
      assert Hashed(blocks, k, a.key) && Hashed(blocks, k, b.key);
    }
    if a.key != b.key && SharesBucket(a, b) {
      var k :| k in BucketKeys(a.signature) && k in BucketKeys(b.signature);
      assert Hashed(blocks, k, a.key) && Hashed(blocks, k, b.key);
      assert InBucket(buckets, k, a.key) && InBucket(buckets, k, b.key);
      AllPairsAre(buckets[k], a.key, b.key);
      assert k in Elements(order);
    }
  }

  /** What a pair list of `blocks` must contain. */
  ghost predicate ListsCandidates(blocks: seq<Block>, pairs: seq<Pair>) {
    && (forall p :: p in pairs ==> exists a, b :: a in blocks && b in blocks && p == (a.key, b.key))
    && forall a, b :: a in blocks && b in blocks ==>
         ({a.key, b.key} in SeenOf(pairs) <==> a.key != b.key && SharesBucket(a, b))
  }

  method PairsOfBlocks(blocks: seq<Block>) returns (pairs: seq<Pair>)
    requires KeysDistinct(blocks)
    ensures ListsCandidates(blocks, pairs) && OncePerPair(pairs)
  {
    var order, buckets := IndexBuckets(blocks);
    pairs := CandidatePairs(order, buckets);
    forall a, b | a in blocks && b in blocks
      ensures {a.key, b.key} in SeenOf(pairs) <==> a.key != b.key && SharesBucket(a, b)
    {
      MeetIsSharing(blocks, order, buckets, a, b);
    }
    forall p | p in pairs ensures exists a, b :: a in blocks && b in blocks && p == (a.key, b.key) {
      assert Unordered(p) in SeenOf(pairs);
      var k :| k in order && k in buckets && {p.0, p.1} in AllPairs(buckets[k]);
      AllPairsAre(buckets[k], p.0, p.1);
      assert InBucket(buckets, k, p.0) && InBucket(buckets, k, p.1);
      assert Hashed(blocks, k, p.0) && Hashed(blocks, k, p.1);
    }
  }

  function BlockMap(blocks: seq<Block>): (r: map<string, Block>)
    ensures r.Keys == (set b | b in blocks :: b.key)
    ensures forall key :: key in r ==> r[key] in blocks && r[key].key == key
  {
    if blocks == [] then map[]
    else
      assert blocks == blocks[..|blocks| - 1] + [blocks[|blocks| - 1]];
      BlockMap(blocks[..|blocks| - 1])[blocks[|blocks| - 1].key := blocks[|blocks| - 1]]
  }

  /** The simple definition: a block is repeated if some other block in a shared bucket is similar enough. */
  ghost predicate Repeated(blocks: seq<Block>, threshold: real, key: string) {
    exists a, b :: a in blocks && b in blocks && a.key == key && Similar(a, b, threshold)
  }

  method AddOnce(s: seq<string>, x: string) returns (r: seq<string>)
    requires Distinct(s)
    ensures Distinct(r) && forall y :: y in r <==> y in s || y == x
  {
    r := if x in s then s else s + [x];
  }

  ghost predicate Hit(docs: map<string, Block>, pairs: seq<Pair>, threshold: real, key: string)
  {
    exists p :: p in pairs && p.0 in docs && p.1 in docs && (key == p.0 || key == p.1)
                && MinHashSimilarity(docs[p.0].signature, docs[p.1].signature) >= threshold
  }

  /** The repeated blocks, in the order in which the enumeration first meets them. */
  method RepeatedBlocksOf(blocks: seq<Block>, threshold: real) returns (repeated: seq<string>)
    requires KeysDistinct(blocks)
    ensures Distinct(repeated)
    ensures forall key :: key in repeated <==> Repeated(blocks, threshold, key)
  {
    var docs := BlockMap(blocks);
    var pairs := PairsOfBlocks(blocks);
    repeated := [];
    for i := 0 to |pairs|
      invariant Distinct(repeated)
      invariant forall key :: key in repeated <==> Hit(docs, pairs[..i], threshold, key)
    {
      assert pairs[..i + 1] == pairs[..i] + [pairs[i]];
      assert pairs[i] in pairs;
      var left, right := docs[pairs[i].0], docs[pairs[i].1];
      if MinHashSimilarity(left.signature, right.signature) >= threshold {
        repeated := AddOnce(repeated, pairs[i].0);
        repeated := AddOnce(repeated, pairs[i].1);
      }
    }
    assert pairs[..|pairs|] == pairs;
    forall key ensures Hit(docs, pairs, threshold, key) <==> Repeated(blocks, threshold, key) {
      if Hit(docs, pairs, threshold, key) {
        HitImpliesRepeated(blocks, pairs, threshold, key);
      }
      if Repeated(blocks, threshold, key) {
        var a, b :| a in blocks && b in blocks && a.key == key && Similar(a, b, threshold);
        RepeatedImpliesHit(blocks, pairs, threshold, a, b);
      }
    }
  }

  lemma {:induction false} UniqueBlock(blocks: seq<Block>, a: Block, b: Block)
    requires KeysDistinct(blocks) && a in blocks && b in blocks && a.key == b.key
    ensures a == b
  {
  }

  lemma {:induction false} SimilarIsSymmetric(a: Block, b: Block, threshold: real)
    ensures Similar(a, b, threshold) <==> Similar(b, a, threshold)
  {
    SimilarityBounds(a.signature, b.signature);
  }

  /** A pair listed in either direction. */
  lemma {:induction false} PairOf(pairs: seq<Pair>, x: string, y: string) returns (p: Pair)
    requires {x, y} in SeenOf(pairs)
    ensures p in pairs && (p == (x, y) || p == (y, x))
  {
    p :| p in pairs && Unordered(p) == {x, y};
    assert p.0 in {x, y} && p.1 in {x, y} && x in {p.0, p.1} && y in {p.0, p.1};
  }

  lemma {:induction false} BlockOf(blocks: seq<Block>, a: Block)
    requires KeysDistinct(blocks) && a in blocks
    ensures a.key in BlockMap(blocks) && BlockMap(blocks)[a.key] == a
  {
    UniqueBlock(blocks, a, BlockMap(blocks)[a.key]);
  }

  lemma {:induction false} ListedPair(blocks: seq<Block>, pairs: seq<Pair>, p: Pair) returns (a: Block, b: Block)
    requires ListsCandidates(blocks, pairs) && p in pairs
    ensures a in blocks && b in blocks && p == (a.key, b.key) && a.key != b.key && SharesBucket(a, b)
  {
    a, b :| a in blocks && b in blocks && p == (a.key, b.key);
    assert Unordered(p) == {a.key, b.key};
    assert Unordered(p) in SeenOf(pairs);
  }

  lemma {:induction false} HitImpliesRepeated(blocks: seq<Block>, pairs: seq<Pair>, threshold: real, key: string)
    requires KeysDistinct(blocks) && ListsCandidates(blocks, pairs)
    requires Hit(BlockMap(blocks), pairs, threshold, key)
    ensures Repeated(blocks, threshold, key)
  {
    var docs := BlockMap(blocks);
    var p :| p in pairs && p.0 in docs && p.1 in docs && (key == p.0 || key == p.1)
             && MinHashSimilarity(docs[p.0].signature, docs[p.1].signature) >= threshold;
    var a, b := ListedPair(blocks, pairs, p);
    BlockOf(blocks, a);
    BlockOf(blocks, b);
    assert Similar(a, b, threshold);
    SimilarIsSymmetric(a, b, threshold);
  }

  lemma {:induction false} RepeatedImpliesHit(blocks: seq<Block>, pairs: seq<Pair>, threshold: real, a: Block, b: Block)
    requires KeysDistinct(blocks) && ListsCandidates(blocks, pairs)
    requires a in blocks && b in blocks && Similar(a, b, threshold)
    ensures Hit(BlockMap(blocks), pairs, threshold, a.key)
  {
    SimilarIsSymmetric(a, b, threshold);
    BlockOf(blocks, a);
    BlockOf(blocks, b);
    assert {a.key, b.key} in SeenOf(pairs);
    var p := PairOf(pairs, a.key, b.key);
  }
}
