/** Historical evidence under a shared budget: the round-robin allocator, the greedy choice of
    distinct members, and the classification of what was inspected. */
module EvolutionEvidence {
  import opened Seqs

  // ---------------------------------------------------------------------------------------------
  // Choosing events within one candidate.  Events are compared by identity, so a selection is a
  // list of positions; `members[p]` is the member of the event at position `p`.
  // ---------------------------------------------------------------------------------------------

  function Used(members: seq<string>, chosen: seq<nat>): set<string> {
    set p | p in chosen && p < |members| :: members[p]
  }

  /** The first position at or after `from` that is not chosen, and whose member is unused if `unused`. */
  function FindEvent(members: seq<string>, chosen: seq<nat>, unused: bool, from: nat): (r: Option<nat>)
    requires from <= |members|
    ensures r.Some? ==> from <= r.value < |members| && r.value !in chosen
                        && (unused ==> members[r.value] !in Used(members, chosen))
    ensures r.None? ==> forall p :: from <= p < |members| && p !in chosen ==> unused && members[p] in Used(members, chosen)
    decreases |members| - from
  {
    if from == |members| then None
    else if from !in chosen && (!unused || members[from] !in Used(members, chosen)) then Some(from)
    else FindEvent(members, chosen, unused, from + 1)
  }

  function NextEvent(members: seq<string>, chosen: seq<nat>): Option<nat> {
    var first := FindEvent(members, chosen, true, 0);
    if first.Some? then first else FindEvent(members, chosen, false, 0)
  }

  /** The first `n` choices. */
  function Greedy(members: seq<string>, n: nat): seq<nat> {
    if n == 0 then []
    else
      var before := Greedy(members, n - 1);
      var next := NextEvent(members, before);
      if next.None? then before else before + [next.value]
  }

  function Min(a: int, b: int): int {
    if a <= b then a else b
  }

  function Positions(n: nat): (r: set<nat>)
    ensures |r| == n && forall p: nat :: p in r <==> p < n
  {
    if n == 0 then {} else Positions(n - 1) + {n - 1}
  }

  lemma {:induction false} ElementsSize<T>(s: seq<T>)
    requires Distinct(s)
    ensures |Elements(s)| == |s|
  {
    if s != [] {
      var front, last := s[..|s| - 1], s[|s| - 1];
      ElementsSize(front);
      assert s == front + [last];
      assert Elements(s) == Elements(front) + {last};
    }
  }

  ghost predicate IsChoice(members: seq<string>, chosen: seq<nat>) {
    Distinct(chosen) && forall p :: p in chosen ==> p < |members|
  }

  lemma {:induction false} ChoiceIsFull(members: seq<string>, chosen: seq<nat>)
    requires IsChoice(members, chosen)
    ensures |chosen| <= |members|
    ensures (forall p :: 0 <= p < |members| ==> p in chosen) <==> |chosen| == |members|
  {
    ElementsSize(chosen);
    var all := Positions(|members|);
    assert Elements(chosen) <= all;
    SubsetSize(Elements(chosen), all);
    if forall p :: 0 <= p < |members| ==> p in chosen {
      assert all <= Elements(chosen);
    } else {
      var p: nat :| p < |members| && p !in chosen;
      assert p in all && p !in Elements(chosen);
    }
  }

  lemma {:induction false} SubsetSize<T>(a: set<T>, b: set<T>)
    requires a <= b
    ensures |a| <= |b| && (|a| == |b| <==> a == b)
  {
    assert b == a + (b - a);
  }

  lemma {:induction false} GreedyIsChoice(members: seq<string>, n: nat)
    ensures IsChoice(members, Greedy(members, n))
    ensures |Greedy(members, n)| == Min(n, |members|)
  {
    if n > 0 {
      GreedyIsChoice(members, n - 1);
      ChoiceIsFull(members, Greedy(members, n - 1));
    }
  }

  lemma {:induction false} NextMember(members: seq<string>, chosen: seq<nat>, p: nat)
    requires IsChoice(members, chosen) && NextEvent(members, chosen) == Some(p)
    ensures |Used(members, chosen + [p])|
            == |Used(members, chosen)| + if |Used(members, chosen)| < |Elements(members)| then 1 else 0
  {
    var used := Used(members, chosen);
    assert Used(members, chosen + [p]) == used + {members[p]};
    assert used <= Elements(members) && members[p] in Elements(members);
    SubsetSize(used, Elements(members));
    if FindEvent(members, chosen, true, 0).None? {
      AllUsed(members, chosen);
    }
  }

  /** A selection repeats a member only once every member is represented. */
  lemma {:induction false} GreedyDiversity(members: seq<string>, n: nat)
    ensures |Used(members, Greedy(members, n))| == Min(|Greedy(members, n)|, |Elements(members)|)
  {
    if n > 0 {
      var before := Greedy(members, n - 1);
      GreedyDiversity(members, n - 1);
      assert IsChoice(members, before) by {
        GreedyIsChoice(members, n - 1);
      }
      var next := NextEvent(members, before);
      if next.Some? {
        NextMember(members, before, next.value);
        assert Greedy(members, n) == before + [next.value];
      } else {
        assert Greedy(members, n) == before;
      }
    } else {
      assert Used(members, []) == {};
    }
  }

  lemma {:induction false} AllUsed(members: seq<string>, chosen: seq<nat>)
    requires IsChoice(members, chosen) && FindEvent(members, chosen, true, 0).None?
    ensures Used(members, chosen) == Elements(members)
  {
    forall m | m in Elements(members) ensures m in Used(members, chosen) {
      var p: nat :| p < |members| && members[p] == m;
    }
  }

  /** `p` is the right position to choose after `before`: while some member is unused the first one
      with an unused member, and then the first one left. */
  ghost predicate IsFirstChoice(members: seq<string>, before: seq<nat>, p: nat) {
    && p < |members| && p !in before
    && (forall q :: 0 <= q < p ==> q in before || members[q] in Used(members, before))
    && if Used(members, before) == Elements(members) then forall q :: 0 <= q < p ==> q in before
       else members[p] !in Used(members, before)
  }

  ghost predicate TakesFirst(members: seq<string>, chosen: seq<nat>) {
    forall n {:trigger chosen[n]} :: 0 <= n < |chosen| ==> IsFirstChoice(members, chosen[..n], chosen[n])
  }

  lemma {:induction false} FoundIsFirst(members: seq<string>, chosen: seq<nat>, unused: bool, start: nat, q: nat)
    requires start <= q && start <= |members|
    requires var r := FindEvent(members, chosen, unused, start); r.Some? && q < r.value
    ensures q in chosen || (unused && members[q] in Used(members, chosen))
    decreases |members| - start
  {
    if q > start {
      FoundIsFirst(members, chosen, unused, start + 1, q);
    }
  }

  lemma {:induction false} NextIsFirst(members: seq<string>, chosen: seq<nat>, p: nat)
    requires IsChoice(members, chosen) && NextEvent(members, chosen) == Some(p)
    ensures IsFirstChoice(members, chosen, p)
  {
    var first := FindEvent(members, chosen, true, 0);
    if first.None? {
      AllUsed(members, chosen);
    }
    forall q | 0 <= q < p
      ensures q in chosen || members[q] in Used(members, chosen)
      ensures first.None? ==> q in chosen
    {
      FoundIsFirst(members, chosen, first.Some?, 0, q);
    }
    if first.Some? {
      assert members[p] in Elements(members) && members[p] !in Used(members, chosen);
    }
  }

  /** A selection takes the first eligible event every time. */
  lemma {:induction false} GreedyTakesFirst(members: seq<string>, n: nat)
    ensures TakesFirst(members, Greedy(members, n))
  {
    if n > 0 {
      var before := Greedy(members, n - 1);
      GreedyTakesFirst(members, n - 1);
      GreedyIsChoice(members, n - 1);
      var next := NextEvent(members, before);
      if next.Some? {
        NextIsFirst(members, before, next.value);
        var all := before + [next.value];
        assert all[..|before|] == before;
        forall i | 0 <= i < |before| ensures IsFirstChoice(members, all[..i], all[i]) {
          assert all[..i] == before[..i];
          assert IsFirstChoice(members, before[..i], before[i]);
        }
      }
    }
  }

  /** Taking the first eligible event every time leaves no choice: the number of events determines them. */
  lemma {:induction false} FirstChoicesAreUnique(members: seq<string>, a: seq<nat>, b: seq<nat>)
    requires TakesFirst(members, a) && TakesFirst(members, b) && |a| == |b|
    ensures a == b
  {
    if a != [] {
      var n := |a| - 1;
      TakesFirstPrefix(members, a);
      TakesFirstPrefix(members, b);
      FirstChoicesAreUnique(members, a[..n], b[..n]);
      assert IsFirstChoice(members, a[..n], a[n]) && IsFirstChoice(members, b[..n], b[n]);
    }
  }

  lemma {:induction false} TakesFirstPrefix(members: seq<string>, a: seq<nat>)
    requires TakesFirst(members, a) && a != []
    ensures TakesFirst(members, a[..|a| - 1])
  {
    var front := a[..|a| - 1];
    forall i | 0 <= i < |front| ensures IsFirstChoice(members, front[..i], front[i]) {
      assert front[..i] == a[..i] && front[i] == a[i];
    }
  }

  // ---------------------------------------------------------------------------------------------
  // Sharing the budget between candidates
  // ---------------------------------------------------------------------------------------------

  type Candidate = seq<string>

  function Share(r: nat, k: nat, i: nat): nat {
    r + if i < k then 1 else 0
  }

  /** `r` full rounds and `k` candidates served in the round after. */
  function Level(candidates: seq<Candidate>, r: nat, k: nat): seq<seq<nat>> {
    seq(|candidates|, i requires 0 <= i < |candidates| => Greedy(candidates[i], Share(r, k, i)))
  }

  function Sizes<T>(s: seq<seq<T>>): seq<int> {
    seq(|s|, i requires 0 <= i < |s| => |s[i]|)
  }

  function Total<T>(s: seq<seq<T>>): int {
    Sum(Sizes(s))
  }

  lemma {:induction false} SumAtMost(a: seq<int>, b: seq<int>)
    requires |a| == |b| && forall i :: 0 <= i < |a| ==> a[i] <= b[i]
    ensures Sum(a) <= Sum(b)
    ensures Sum(a) == Sum(b) ==> a == b
  {
    if a != [] {
      SumAtMost(a[1..], b[1..]);
      assert a == [a[0]] + a[1..] && b == [b[0]] + b[1..];
    }
  }

  lemma {:induction false} TotalUpdate<T>(s: seq<seq<T>>, i: nat, x: T)
    requires i < |s|
    ensures Total(s[i := s[i] + [x]]) == Total(s) + 1
  {
    assert Sizes(s[i := s[i] + [x]]) == Sizes(s)[i := |s[i]| + 1];
    SumUpdate(Sizes(s), i, |s[i]| + 1);
  }

  /** Serving candidate `k` in round `r` moves the level by one candidate. */
  lemma {:induction false} LevelStep(candidates: seq<Candidate>, r: nat, k: nat)
    requires k < |candidates|
    ensures var before := Level(candidates, r, k);
      var next := NextEvent(candidates[k], before[k]);
      Level(candidates, r, k + 1) == if next.Some? then before[k := before[k] + [next.value]] else before
    ensures NextEvent(candidates[k], Level(candidates, r, k)[k]).None? <==> |candidates[k]| <= r
  {
    GreedyIsChoice(candidates[k], r);
    GreedyIsChoice(candidates[k], r + 1);
  }

  /** One round over the candidates, ended early when the budget is used up. */
  method Round(candidates: seq<Candidate>, ghost r: nat, selected: seq<seq<nat>>, budget: nat)
    returns (selected': seq<seq<nat>>, remaining: nat, any: bool, ghost k: nat)
    requires selected == Level(candidates, r, 0) && budget > 0
    ensures k <= |candidates| && selected' == Level(candidates, r, k)
    ensures remaining + Total(selected') == budget + Total(selected)
    ensures k < |candidates| ==> remaining == 0
    ensures any ==> remaining < budget
    ensures !any ==> k == |candidates| && remaining == budget && forall i :: 0 <= i < |candidates| ==> |candidates[i]| <= r
  {
    selected', remaining, any, k := selected, budget, false, 0;
    for i := 0 to |candidates|
      invariant k == i && selected' == Level(candidates, r, i)
      invariant remaining + Total(selected') == budget + Total(selected)
      invariant if any then remaining < budget
                else remaining == budget && forall j :: 0 <= j < i ==> |candidates[j]| <= r
    {
      if remaining == 0 {
        return;
      }
      LevelStep(candidates, r, i);
      var next := NextEvent(candidates[i], selected'[i]);
      if next.Some? {
        TotalUpdate(selected', i, next.value);
        selected' := selected'[i := selected'[i] + [next.value]];
        remaining := remaining - 1;
        any := true;
      }
      k := i + 1;
    }
  }

  ghost predicate IsWaterLevel(candidates: seq<Candidate>, selected: seq<seq<nat>>, r: nat, k: nat) {
    k <= |candidates| && selected == Level(candidates, r, k)
  }

  lemma {:induction false} LevelTotal(candidates: seq<Candidate>, r: nat, k: nat)
    ensures Total(Level(candidates, r, k)) <= Total(candidates)
    ensures (forall i :: 0 <= i < |candidates| ==> |candidates[i]| <= r) ==> Total(Level(candidates, r, k)) == Total(candidates)
    ensures r == k == 0 ==> Total(Level(candidates, r, k)) == 0
  {
    LevelSizes(candidates, r, k);
    SumAtMost(Sizes(Level(candidates, r, k)), Sizes(candidates));
    if forall i :: 0 <= i < |candidates| ==> |candidates[i]| <= r {
      assert Sizes(Level(candidates, r, k)) == Sizes(candidates);
    }
    if r == k == 0 {
      ZeroSum(Sizes(Level(candidates, r, k)));
    }
  }

  lemma {:induction false} NextRound(candidates: seq<Candidate>, r: nat)
    ensures Level(candidates, r, |candidates|) == Level(candidates, r + 1, 0)
  {
  }

  /** The round-robin distribution of a shared budget. */
  method SelectCoordinationEvents(candidates: seq<Candidate>, budget: int) returns (selected: seq<seq<nat>>)
    ensures exists r: nat, k: nat :: IsWaterLevel(candidates, selected, r, k)
    ensures Total(selected) == Min(if budget < 0 then 0 else budget, Total(candidates))
    ensures |selected| == |candidates| && forall i :: 0 <= i < |candidates| ==> TakesFirst(candidates[i], selected[i])
  {
    selected := seq(|candidates|, _ => []);
    ghost var r: nat, k: nat := 0, 0;
    assert selected == Level(candidates, 0, 0);
    LevelTotal(candidates, 0, 0);
    var remaining := budget;
    while remaining > 0
      invariant remaining >= 0 || remaining == budget
      invariant IsWaterLevel(candidates, selected, r, k) && (remaining > 0 ==> k == 0)
      invariant remaining + Total(selected) == budget
      decreases remaining
    {
      var any;
      selected, remaining, any, k := Round(candidates, r, selected, remaining);
      assert IsWaterLevel(candidates, selected, r, k);
      LevelTotal(candidates, r, k);
      if !any {
        break;
      }
      if remaining > 0 {
        NextRound(candidates, r);
        r, k := r + 1, 0;
      }
    }
    LevelTotal(candidates, r, k);
    forall i | 0 <= i < |candidates| ensures TakesFirst(candidates[i], selected[i]) {
      GreedyTakesFirst(candidates[i], Share(r, k, i));
    }
  }

  lemma {:induction false} ZeroSum(s: seq<int>)
    requires forall i :: 0 <= i < |s| ==> s[i] == 0
    ensures Sum(s) == 0
  {
    if s != [] {
      ZeroSum(s[1..]);
    }
  }

  lemma {:induction false} LevelSizes(candidates: seq<Candidate>, r: nat, k: nat)
    ensures |Level(candidates, r, k)| == |candidates|
    ensures forall i :: 0 <= i < |candidates| ==> |Level(candidates, r, k)[i]| == Min(|candidates[i]|, Share(r, k, i))
  {
    forall i | 0 <= i < |candidates| ensures |Level(candidates, r, k)[i]| == Min(|candidates[i]|, Share(r, k, i)) {
      GreedyIsChoice(candidates[i], Share(r, k, i));
    }
  }

  /** Every candidate's selection is a set of its own events with as many members as possible. */
  lemma {:induction false} WaterLevelSelections(candidates: seq<Candidate>, selected: seq<seq<nat>>, r: nat, k: nat, i: nat)
    requires IsWaterLevel(candidates, selected, r, k) && i < |candidates|
    ensures |selected| == |candidates| && IsChoice(candidates[i], selected[i])
    ensures |selected[i]| == Min(|candidates[i]|, Share(r, k, i))
    ensures |Used(candidates[i], selected[i])| == Min(|selected[i]|, |Elements(candidates[i])|)
  {
    GreedyIsChoice(candidates[i], Share(r, k, i));
    GreedyDiversity(candidates[i], Share(r, k, i));
  }

  /** No candidate with events left trails another by more than one, nor an equal or later one at all. */
  lemma {:induction false} FairShares(candidates: seq<Candidate>, selected: seq<seq<nat>>, r: nat, k: nat, i: nat, j: nat)
    requires IsWaterLevel(candidates, selected, r, k) && i < |candidates| && j < |candidates|
    requires |selected| == |candidates| && |selected[i]| < |candidates[i]|
    ensures |selected[j]| <= |selected[i]| + if i <= j then 0 else 1
  {
    LevelSizes(candidates, r, k);
  }

  /** The total determines how many events every candidate receives. */
  lemma {:induction false} WaterLevelIsUnique(candidates: seq<Candidate>, r: nat, k: nat, r': nat, k': nat)
    requires k <= |candidates| && k' <= |candidates|
    requires Total(Level(candidates, r, k)) == Total(Level(candidates, r', k'))
    ensures Sizes(Level(candidates, r, k)) == Sizes(Level(candidates, r', k'))
  {
    LevelSizes(candidates, r, k);
    LevelSizes(candidates, r', k');
    var a, b := Sizes(Level(candidates, r, k)), Sizes(Level(candidates, r', k'));
    if r < r' || (r == r' && k <= k') {
      SumAtMost(a, b);
    } else {
      SumAtMost(b, a);
    }
  }

  // ---------------------------------------------------------------------------------------------
  // Classification of inspected events
  // ---------------------------------------------------------------------------------------------

  datatype EventStatus = EventConfirmed | EventNotConfirmed | EventUnavailable

  datatype EvidenceStatus = Unavailable | Partial | Confirmed | NotConfirmed

  function CountOf(statuses: seq<EventStatus>, s: EventStatus): nat {
    if statuses == [] then 0 else (if statuses[0] == s then 1 else 0) + CountOf(statuses[1..], s)
  }

  function AggregateEvidence(statuses: seq<EventStatus>, budgetExhausted: bool): EvidenceStatus {
    var confirmed := CountOf(statuses, EventConfirmed);
    var unavailable := CountOf(statuses, EventUnavailable);
    if |statuses| == 0 || unavailable == |statuses| then Unavailable
    else if budgetExhausted || unavailable > 0 then Partial
    else if confirmed == |statuses| then Confirmed
    else NotConfirmed
  }

  lemma {:induction false} CountBounds(statuses: seq<EventStatus>, s: EventStatus)
    ensures CountOf(statuses, s) <= |statuses|
    ensures CountOf(statuses, s) == |statuses| <==> (forall x :: x in statuses ==> x == s)
    ensures CountOf(statuses, s) == 0 <==> s !in statuses
  {
    if statuses != [] {
      CountBounds(statuses[1..], s);
      assert statuses == [statuses[0]] + statuses[1..];
      assert statuses[0] in statuses && forall x :: x in statuses[1..] ==> x in statuses;
    }
  }

  /** A verdict is reached exactly on complete, fully readable history; nothing readable is unavailable. */
  lemma {:induction false} EvidenceVerdicts(statuses: seq<EventStatus>, budgetExhausted: bool)
    ensures AggregateEvidence(statuses, budgetExhausted).Unavailable? <==> forall s :: s in statuses ==> s.EventUnavailable?
    ensures AggregateEvidence(statuses, budgetExhausted).Confirmed?
            <==> statuses != [] && !budgetExhausted && forall s :: s in statuses ==> s.EventConfirmed?
    ensures AggregateEvidence(statuses, budgetExhausted).NotConfirmed?
            <==> !budgetExhausted && EventUnavailable !in statuses && EventNotConfirmed in statuses
  {
    CountBounds(statuses, EventConfirmed);
    CountBounds(statuses, EventUnavailable);
    if statuses != [] {
      assert statuses[0] in statuses;
    }
    if forall s :: s in statuses ==> s != EventUnavailable && s != EventNotConfirmed {
      assert forall s :: s in statuses ==> s == EventConfirmed;
    }
  }

  // ---------------------------------------------------------------------------------------------
  // Co-change sets: a first-come budget and the dominant change fingerprint
  // ---------------------------------------------------------------------------------------------

  function Cap(supporting: seq<nat>, maxCandidates: nat, maxPerCandidate: nat, i: nat): nat
    requires i < |supporting|
  {
    if i < maxCandidates then Min(supporting[i], maxPerCandidate) else 0
  }

  function Caps(supporting: seq<nat>, maxCandidates: nat, maxPerCandidate: nat): seq<int> {
    seq(|supporting|, i requires 0 <= i < |supporting| => Cap(supporting, maxCandidates, maxPerCandidate, i))
  }

  lemma {:induction false} SumStep(s: seq<int>, i: nat)
    requires i < |s|
    ensures Sum(s[..i + 1]) == Sum(s[..i]) + s[i]
  {
    assert s[..i + 1] == s[..i] + [s[i]];
    SumAppend(s[..i], [s[i]]);
  }

  /** Commits inspected per candidate: in order, each up to its cap, while the budget lasts. */
  method CochangeCommits(supporting: seq<nat>, budget: int, maxCandidates: nat, maxPerCandidate: nat) returns (amounts: seq<int>)
    ensures |amounts| == |supporting|
    ensures Sum(amounts) == Min(if budget < 0 then 0 else budget, Sum(Caps(supporting, maxCandidates, maxPerCandidate)))
    ensures forall i :: 0 <= i < |amounts| ==> 0 <= amounts[i] <= Cap(supporting, maxCandidates, maxPerCandidate, i)
    ensures forall i, j :: 0 <= i < j < |amounts| && amounts[i] < Cap(supporting, maxCandidates, maxPerCandidate, i) ==> amounts[j] == 0
    ensures forall i :: 0 <= i < |amounts| ==>
              amounts[i] <= supporting[i] && amounts[i] <= maxPerCandidate && (i >= maxCandidates ==> amounts[i] == 0)
    ensures forall i :: 0 <= i < |amounts| && i < maxCandidates && amounts[i] < supporting[i] && amounts[i] < maxPerCandidate ==>
              Sum(amounts) == (if budget < 0 then 0 else budget) && forall j :: i < j < |amounts| ==> amounts[j] == 0
  {
    amounts := [];
    var remaining := budget;
    ghost var caps := Caps(supporting, maxCandidates, maxPerCandidate);
    for i := 0 to |supporting|
      invariant |amounts| == i && remaining + Sum(amounts) == budget
      invariant remaining <= budget && (budget >= 0 ==> remaining >= 0)
      invariant Sum(amounts) == Min(if budget < 0 then 0 else budget, Sum(caps[..i]))
      invariant forall j :: 0 <= j < i ==> 0 <= amounts[j] <= caps[j]
      invariant forall j :: 0 <= j < i && amounts[j] < caps[j] ==> remaining <= 0
      invariant forall j, m :: 0 <= j < m < i && amounts[j] < caps[j] ==> amounts[m] == 0
    {
      SumStep(caps, i);
      var taken := if i < maxCandidates
                   then Min(supporting[i], Min(maxPerCandidate, if remaining < 0 then 0 else remaining)) else 0;
      SumAppend(amounts, [taken]);
      amounts := amounts + [taken];
      remaining := remaining - taken;
    }
    assert caps[..|supporting|] == caps;
    forall i | 0 <= i < |amounts| && amounts[i] < caps[i] ensures Sum(amounts) == if budget < 0 then 0 else budget {
      SumAtMost(amounts, caps);
    }
  }

  type Fingerprint = seq<string>

  datatype CochangeStatus = CochangeUnavailable | CochangePartial | Aligned | Mixed

  function Occurrences(events: seq<Option<Fingerprint>>, e: Option<Fingerprint>): nat {
    if events == [] then 0
    else Occurrences(events[..|events| - 1], e) + if events[|events| - 1] == e then 1 else 0
  }

  lemma {:induction false} OccurrencesBounds(events: seq<Option<Fingerprint>>, e: Option<Fingerprint>)
    ensures Occurrences(events, e) <= |events|
    ensures Occurrences(events, e) == |events| <==> (forall x :: x in events ==> x == e)
    ensures Occurrences(events, e) == 0 <==> e !in events
  {
    if events != [] {
      var front, last := events[..|events| - 1], events[|events| - 1];
      OccurrencesBounds(front, e);
      assert events == front + [last];
      assert last in events && forall x :: x in front ==> x in events;
    }
  }

  ghost predicate CountsAre(counts: map<Fingerprint, nat>, events: seq<Option<Fingerprint>>) {
    && (forall k :: k in counts ==> k != [] && counts[k] == Occurrences(events, Some(k)) > 0)
    && (forall k :: k != [] && k !in counts ==> Occurrences(events, Some(k)) == 0)
  }

  /** The fingerprints in the order in which they first occur. */
  function InOrder(events: seq<Option<Fingerprint>>): (r: seq<Fingerprint>)
    ensures forall k :: k in r <==> k != [] && Some(k) in events
    ensures Distinct(r)
  {
    if events == [] then []
    else
      var front, last := events[..|events| - 1], events[|events| - 1];
      assert events == front + [last];
      var before := InOrder(front);
      if last.None? || last.value == [] || last.value in before then before else before + [last.value]
  }

  lemma {:induction false} OccurrencesAre(events: seq<Option<Fingerprint>>, e: Option<Fingerprint>)
    ensures Occurrences(events, e) == multiset(events)[e]
  {
    if events != [] {
      OccurrencesAre(events[..|events| - 1], e);
      assert events == events[..|events| - 1] + [events[|events| - 1]];
    }
  }

  /** `a` occurs before `b` does. */
  ghost predicate OccursBefore(events: seq<Option<Fingerprint>>, a: Fingerprint, b: Fingerprint) {
    exists n :: 0 <= n < |events| && events[n] == Some(a) && Some(b) !in events[..n]
  }

  lemma {:induction false} InOrderIs(events: seq<Option<Fingerprint>>, i: nat, j: nat)
    requires i < j < |InOrder(events)|
    ensures OccursBefore(events, InOrder(events)[i], InOrder(events)[j])
  {
    var front, last := events[..|events| - 1], events[|events| - 1];
    var before, all := InOrder(front), InOrder(events);
    assert all[i] == before[i] && events == front + [last];
    var n :| 0 <= n < |events| && events[n] == Some(all[i]) && (j < |before| ==> Some(all[j]) !in events[..n]) && n < |front| by {
      if j < |before| {
        InOrderIs(front, i, j);
        var n :| 0 <= n < |front| && front[n] == Some(before[i]) && Some(before[j]) !in front[..n];
        assert front[..n] == events[..n];
      } else {
        assert Some(before[i]) in front;
      }
    }
    assert events[..n] <= front;
    assert j >= |before| ==> Some(all[j]) !in front;
  }

  method CountFingerprints(events: seq<Option<Fingerprint>>) returns (counts: map<Fingerprint, nat>, order: seq<Fingerprint>)
    ensures CountsAre(counts, events) && order == InOrder(events)
    ensures forall k :: k in order <==> k in counts
  {
    counts, order := map[], [];
    for i := 0 to |events|
      invariant CountsAre(counts, events[..i]) && order == InOrder(events[..i])
      invariant forall k :: k in order <==> k in counts
    {
      OneMoreCounted(events, i, counts);
      if events[i].Some? && events[i].value != [] {
        var k := events[i].value;
        if k !in counts {
          order := order + [k];
        }
        counts := counts[k := (if k in counts then counts[k] else 0) + 1];
      }
    }
    assert events[..|events|] == events;
  }

  lemma {:induction false} OneMoreCounted(events: seq<Option<Fingerprint>>, i: nat, counts: map<Fingerprint, nat>)
    requires i < |events| && CountsAre(counts, events[..i])
    ensures var e := events[i];
      CountsAre(if e.None? || e.value == [] then counts
                else counts[e.value := (if e.value in counts then counts[e.value] else 0) + 1], events[..i + 1])
    ensures var e, before := events[i], InOrder(events[..i]);
      InOrder(events[..i + 1]) == if e.None? || e.value == [] || e.value in before then before else before + [e.value]
  {
    assert events[..i + 1][..i] == events[..i] && events[..i + 1][i] == events[i];
  }

  /** A comparison by locale: texts that compare as equal need not be equal. */
  ghost predicate IsLocaleOrder(precedes: (Fingerprint, Fingerprint) -> bool) {
    && (forall a, b, c :: precedes(a, b) && precedes(b, c) ==> precedes(a, c))
    && (forall a, b, c :: precedes(a, c) ==> precedes(a, b) || precedes(b, c))
    && (forall a :: !precedes(a, a))
  }

  /** `a` sorts strictly before `b`: more frequent, or as frequent and earlier by locale. */
  predicate Beats(counts: map<Fingerprint, nat>, precedes: (Fingerprint, Fingerprint) -> bool, a: Fingerprint, b: Fingerprint)
    requires a in counts && b in counts
  {
    counts[a] > counts[b] || (counts[a] == counts[b] && precedes(a, b))
  }

  /** The first of the fingerprints that none beats, in a stable sort of the order. */
  ghost predicate IsFirst(counts: map<Fingerprint, nat>, precedes: (Fingerprint, Fingerprint) -> bool, order: seq<Fingerprint>, best: Fingerprint)
    requires forall k :: k in order ==> k in counts
  {
    exists d :: 0 <= d < |order| && order[d] == best && BestAt(counts, precedes, order, d)
  }

  ghost predicate BestAt(counts: map<Fingerprint, nat>, precedes: (Fingerprint, Fingerprint) -> bool, order: seq<Fingerprint>, d: nat)
    requires d < |order| && forall k :: k in order ==> k in counts
  {
    && (forall j :: 0 <= j < d ==> Beats(counts, precedes, order[d], order[j]))
    && forall j :: d <= j < |order| ==> !Beats(counts, precedes, order[j], order[d])
  }

  lemma {:induction false} OneMoreFingerprint(counts: map<Fingerprint, nat>, precedes: (Fingerprint, Fingerprint) -> bool, order: seq<Fingerprint>,
                                              i: nat, d: nat)
    requires IsLocaleOrder(precedes) && d < i < |order| && forall k :: k in order ==> k in counts
    requires BestAt(counts, precedes, order[..i], d)
    ensures BestAt(counts, precedes, order[..i + 1], if Beats(counts, precedes, order[i], order[d]) then i else d)
  {
    var more := order[..i + 1];
    assert more[..i] == order[..i] && more[i] == order[i] && more[d] == order[d];
    forall j | 0 <= j < i && Beats(counts, precedes, order[i], order[d]) ensures Beats(counts, precedes, more[i], more[j]) {
      assert order[..i][j] == more[j] && order[..i][d] == order[d];
      assert j < d ==> Beats(counts, precedes, order[d], more[j]);
      assert j >= d ==> !Beats(counts, precedes, more[j], order[d]);
    }
    forall j | 0 <= j < d ensures Beats(counts, precedes, more[d], more[j]) {
      assert order[..i][j] == more[j];
    }
    forall j | d <= j < i ensures !Beats(counts, precedes, more[j], more[d]) {
      assert order[..i][j] == more[j];
    }
  }

  /** What sorting by count and locale and taking the first comes to. */
  method Dominant(counts: map<Fingerprint, nat>, order: seq<Fingerprint>, precedes: (Fingerprint, Fingerprint) -> bool)
    returns (dominant: Fingerprint, aligned: nat)
    requires IsLocaleOrder(precedes)
    requires forall k :: k in counts ==> k != [] && counts[k] > 0
    requires forall k :: k in order <==> k in counts
    ensures if order == [] then dominant == [] && aligned == 0
            else IsFirst(counts, precedes, order, dominant) && dominant in counts && aligned == counts[dominant]
  {
    if order == [] {
      return [], 0;
    }
    var d: nat := 0;
    for i := 1 to |order|
      invariant d < i
      invariant BestAt(counts, precedes, order[..i], d)
    {
      OneMoreFingerprint(counts, precedes, order, i, d);
      if Beats(counts, precedes, order[i], order[d]) {
        d := i;
      }
    }
    assert order[..|order|] == order;
    dominant, aligned := order[d], counts[order[d]];
  }

  /** Of the most frequent fingerprints the first by locale; of several that compare as equal the one
      that occurs first. */
  ghost predicate IsDominant(events: seq<Option<Fingerprint>>, precedes: (Fingerprint, Fingerprint) -> bool, d: Fingerprint) {
    var order := InOrder(events);
    && d in order
    && (forall k :: k in order ==> Occurrences(events, Some(k)) <= Occurrences(events, Some(d)))
    && (forall k :: k in order && Occurrences(events, Some(k)) == Occurrences(events, Some(d)) ==> !precedes(k, d))
    && exists i :: 0 <= i < |order| && order[i] == d && NoTieBefore(events, precedes, order[..i], d)
  }

  ghost predicate NoTieBefore(events: seq<Option<Fingerprint>>, precedes: (Fingerprint, Fingerprint) -> bool, before: seq<Fingerprint>,
                              d: Fingerprint)
  {
    forall k :: k in before && Occurrences(events, Some(k)) == Occurrences(events, Some(d)) ==> precedes(d, k)
  }

  lemma {:induction false} FirstIsDominant(events: seq<Option<Fingerprint>>, counts: map<Fingerprint, nat>,
                                           precedes: (Fingerprint, Fingerprint) -> bool, d: Fingerprint)
    requires IsLocaleOrder(precedes) && CountsAre(counts, events) && (forall k :: k in InOrder(events) <==> k in counts)
    requires IsFirst(counts, precedes, InOrder(events), d)
    ensures IsDominant(events, precedes, d)
    ensures forall k :: k in counts ==> counts[k] <= counts[d]
  {
    var order := InOrder(events);
    var i := FirstIsUnbeaten(counts, precedes, order, d);
    assert NoTieBefore(events, precedes, order[..i], d) by {
      assert forall k :: k in order[..i] ==> k in order;
    }
    assert forall k :: k in order ==> counts[k] == Occurrences(events, Some(k));
  }

  lemma {:induction false} FirstIsUnbeaten(counts: map<Fingerprint, nat>, precedes: (Fingerprint, Fingerprint) -> bool,
                                           order: seq<Fingerprint>, d: Fingerprint) returns (i: nat)
    requires IsLocaleOrder(precedes) && (forall k :: k in order ==> k in counts) && IsFirst(counts, precedes, order, d)
    ensures i < |order| && order[i] == d
    ensures forall k :: k in order ==> !Beats(counts, precedes, k, d)
    ensures forall k :: k in order[..i] ==> k in counts && Beats(counts, precedes, d, k)
  {
    i :| i < |order| && order[i] == d && BestAt(counts, precedes, order, i);
    forall k | k in order ensures !Beats(counts, precedes, k, d) {
      var j :| 0 <= j < |order| && order[j] == k;
      if j < i {
        assert Beats(counts, precedes, order[i], order[j]);
      }
    }
    forall k | k in order[..i] ensures k in counts && Beats(counts, precedes, d, k) {
      var j :| 0 <= j < i && order[j] == k;
      assert order[j] in order;
    }
  }

  /** The verdict on the commits of one co-change set. */
  method CochangeEvidence(events: seq<Option<Fingerprint>>, budgetExhausted: bool, precedes: (Fingerprint, Fingerprint) -> bool)
    returns (status: CochangeStatus, dominant: Fingerprint, aligned: nat)
    requires IsLocaleOrder(precedes)
    ensures forall k :: k != [] ==> Occurrences(events, Some(k)) <= aligned
    ensures dominant != [] ==> IsDominant(events, precedes, dominant)
    ensures if dominant == [] then aligned == 0 else aligned == Occurrences(events, Some(dominant)) > 0
    ensures status.Aligned? <==> events != [] && !budgetExhausted && dominant != [] && forall e :: e in events ==> e == Some(dominant)
    ensures status.CochangeUnavailable? <==> forall e :: e in events ==> e.None?
    ensures status.CochangePartial? <==> (exists e :: e in events && e.Some?) && (budgetExhausted || None in events)
    ensures status.Mixed? <==> events != [] && !budgetExhausted && None !in events
                               && (dominant == [] || exists e :: e in events && e != Some(dominant))
  {
    var counts, order := CountFingerprints(events);
    dominant, aligned := Dominant(counts, order, precedes);
    if order != [] {
      FirstIsDominant(events, counts, precedes, dominant);
    }
    assert forall k :: k in counts ==> counts[k] <= aligned;
    var unavailable := Occurrences(events, None);
    OccurrencesBounds(events, None);
    OccurrencesBounds(events, Some(dominant));
    if |events| == 0 || unavailable == |events| {
      status := CochangeUnavailable;
    } else if budgetExhausted || unavailable > 0 {
      status := CochangePartial;
    } else if aligned == |events| && dominant != [] {
      status := Aligned;
    } else {
      status := Mixed;
    }
  }
}
