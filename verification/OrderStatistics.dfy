/** Sorting numbers upwards and reading off the 95th percentile. */
module OrderStatistics {

  predicate IsSorted(s: seq<nat>) {
    forall i, j :: 0 <= i < j < |s| ==> s[i] <= s[j]
  }

  /** Stable insertion: `x` goes before the first element that is at least as large. */
  function InsertUp(x: nat, s: seq<nat>): (r: seq<nat>)
    ensures |r| == |s| + 1
  {
    if s == [] || x <= s[0] then [x] + s else [s[0]] + InsertUp(x, s[1..])
  }

  function SortUp(s: seq<nat>): (r: seq<nat>)
    ensures |r| == |s|
  {
    if s == [] then [] else InsertUp(s[0], SortUp(s[1..]))
  }

  lemma {:induction false} InsertUpElements(x: nat, s: seq<nat>)
    ensures multiset(InsertUp(x, s)) == multiset(s) + multiset{x}
  {
    if !(s == [] || x <= s[0]) {
      InsertUpElements(x, s[1..]);
      assert s == [s[0]] + s[1..];
    }
  }

  lemma {:induction false} InsertUpSorted(x: nat, s: seq<nat>)
    requires IsSorted(s)
    ensures IsSorted(InsertUp(x, s))
  {
    if !(s == [] || x <= s[0]) {
      var rest := InsertUp(x, s[1..]);
      InsertUpSorted(x, s[1..]);
      InsertUpElements(x, s[1..]);
      forall j | 0 <= j < |rest| ensures s[0] <= rest[j] {
        assert rest[j] in multiset(rest);
        assert rest[j] in s[1..] || rest[j] == x;
      }
    }
  }

  /** The result is sorted and a permutation of the input. */
  lemma {:induction false} SortUpSorts(s: seq<nat>)
    ensures IsSorted(SortUp(s)) && multiset(SortUp(s)) == multiset(s)
  {
    if s != [] {
      SortUpSorts(s[1..]);
      InsertUpSorted(s[0], SortUp(s[1..]));
      InsertUpElements(s[0], SortUp(s[1..]));
      assert s == [s[0]] + s[1..];
    }
  }

  /** `min(n - 1, floor(n * 0.95))`. */
  function P95Index(n: nat): (k: nat)
    requires n > 0
    ensures k < n && 100 * k <= 95 * n < 100 * (k + 1)
  {
    if 95 * n / 100 < n - 1 then 95 * n / 100 else n - 1
  }

  function P95(s: seq<nat>): nat {
    if s == [] then 0 else SortUp(s)[P95Index(|s|)]
  }

  function CountAbove(s: seq<nat>, v: nat): (n: nat)
    ensures n <= |s|
  {
    if s == [] then 0 else (if s[0] > v then 1 else 0) + CountAbove(s[1..], v)
  }

  function CountBelow(s: seq<nat>, v: nat): (n: nat)
    ensures n <= |s|
  {
    if s == [] then 0 else (if s[0] < v then 1 else 0) + CountBelow(s[1..], v)
  }

  lemma {:induction false} InsertUpCount(x: nat, s: seq<nat>, v: nat)
    ensures CountAbove(InsertUp(x, s), v) == (if x > v then 1 else 0) + CountAbove(s, v)
    ensures CountBelow(InsertUp(x, s), v) == (if x < v then 1 else 0) + CountBelow(s, v)
  {
    if s == [] || x <= s[0] {
      assert ([x] + s)[1..] == s;
    } else {
      InsertUpCount(x, s[1..], v);
      assert InsertUp(x, s)[1..] == InsertUp(x, s[1..]);
    }
  }

  lemma {:induction false} SortUpCount(s: seq<nat>, v: nat)
    ensures CountAbove(SortUp(s), v) == CountAbove(s, v) && CountBelow(SortUp(s), v) == CountBelow(s, v)
  {
    if s != [] {
      SortUpCount(s[1..], v);
      InsertUpCount(s[0], SortUp(s[1..]), v);
    }
  }

  lemma {:induction false} CountAboveSorted(s: seq<nat>, k: nat)
    requires IsSorted(s) && k < |s|
    ensures CountAbove(s, s[k]) <= |s| - 1 - k
    ensures CountBelow(s, s[k]) <= k
  {
    if k > 0 {
      assert s[k] == s[1..][k - 1];
      CountAboveSorted(s[1..], k - 1);
    } else {
      NoneBelowFirst(s, s[0]);
    }
  }

  lemma {:induction false} NoneBelowFirst(s: seq<nat>, v: nat)
    requires forall i :: 0 <= i < |s| ==> s[i] >= v
    ensures CountBelow(s, v) == 0
  {
    if s != [] {
      NoneBelowFirst(s[1..], v);
    }
  }

  /** Every number is above the smaller of two values or below the larger one. */
  lemma {:induction false} AboveOrBelow(s: seq<nat>, u: nat, v: nat)
    requires u < v
    ensures CountAbove(s, u) + CountBelow(s, v) >= |s|
  {
    if s != [] {
      AboveOrBelow(s[1..], u, v);
    }
  }

  /** One of the numbers, with at most `95n / 100`, rounded down, below it and at most the rest but one above. */
  predicate IsP95(s: seq<nat>, v: nat) {
    v in s && CountBelow(s, v) <= 95 * |s| / 100 && CountAbove(s, v) <= |s| - 1 - 95 * |s| / 100
  }

  /** This is what the percentile is, and the only number that is. */
  lemma {:induction false} P95Iff(s: seq<nat>, v: nat)
    requires s != []
    ensures v == P95(s) <==> IsP95(s, v)
  {
    var p, k := P95(s), P95Index(|s|);
    SortUpSorts(s);
    SortUpCount(s, p);
    CountAboveSorted(SortUp(s), k);
    assert p in multiset(SortUp(s));
    if IsP95(s, v) && v < p {
      AboveOrBelow(s, v, p);
    }
    if IsP95(s, v) && p < v {
      AboveOrBelow(s, p, v);
    }
  }

  /** Fewer than one number in twenty lies above the percentile, and none among twenty or fewer. */
  lemma {:induction false} FewAboveP95(s: seq<nat>)
    requires s != []
    ensures CountAbove(s, P95(s)) <= |s| - 1 - 95 * |s| / 100
    ensures |s| - CountBelow(s, P95(s)) >= |s| - 95 * |s| / 100
    ensures |s| <= 20 ==> CountAbove(s, P95(s)) == 0
  {
    P95Iff(s, P95(s));
  }

  predicate AllAtMost(s: seq<nat>, v: nat) {
    forall i :: 0 <= i < |s| ==> s[i] <= v
  }

  lemma {:induction false} NoneAbove(s: seq<nat>, v: nat)
    ensures CountAbove(s, v) == 0 <==> AllAtMost(s, v)
  {
    if s != [] {
      NoneAbove(s[1..], v);
      assert s == [s[0]] + s[1..];
    }
  }
}
