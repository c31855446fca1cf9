/** Git change sets: the name-status parser and the memo over whole change sets. */
module ChangeSet {
  import opened Seqs

  const NUL: char := '\0'

  // ---------------------------------------------------------------------------------------------
  // Splitting and joining at NUL
  // ---------------------------------------------------------------------------------------------

  function NulIndex(s: string): (n: nat)
    ensures n <= |s| && (n < |s| ==> s[n] == NUL) && forall i :: 0 <= i < n ==> s[i] != NUL
  {
    if s == "" || s[0] == NUL then 0 else 1 + NulIndex(s[1..])
  }

  function SplitNul(s: string): (r: seq<string>)
    ensures r != []
    decreases |s|
  {
    var n := NulIndex(s);
    if n == |s| then [s] else [s[..n]] + SplitNul(s[n + 1..])
  }

  function JoinNul(parts: seq<string>): string {
    if parts == [] then "" else if |parts| == 1 then parts[0] else parts[0] + [NUL] + JoinNul(parts[1..])
  }

  predicate NulFree(parts: seq<string>) {
    forall i :: 0 <= i < |parts| ==> NUL !in parts[i]
  }

  lemma {:induction false} SplitFirst(part: string, rest: string)
    requires NUL !in part
    ensures SplitNul(part + [NUL] + rest) == [part] + SplitNul(rest)
  {
    var s, n := part + [NUL] + rest, |part|;
    forall i | 0 <= i < n ensures s[i] != NUL {
      assert s[i] == part[i];
    }
    assert s[n] == NUL && NulIndex(s) == n;
    assert s[..n] == part && s[n + 1..] == rest;
  }

  lemma {:induction false} SplitWhole(part: string)
    requires NUL !in part
    ensures SplitNul(part) == [part]
  {
  }

  /** Splitting inverts joining of NUL-free parts. */
  lemma {:induction false} SplitJoinNul(parts: seq<string>)
    requires parts != [] && NulFree(parts)
    ensures SplitNul(JoinNul(parts)) == parts
  {
    if |parts| == 1 {
      SplitWhole(parts[0]);
    } else {
      SplitJoinNul(parts[1..]);
      SplitFirst(parts[0], JoinNul(parts[1..]));
    }
  }

  // ---------------------------------------------------------------------------------------------
  // Name-status output
  // ---------------------------------------------------------------------------------------------

  datatype Kind = Added | Deleted | Modified

  datatype Status = Status(path: string, beforePath: Option<string>, kind: Kind)

  function KindOf(code: char): Kind {
    if code == 'A' then Added else if code == 'D' then Deleted else Modified
  }

  predicate IsMove(code: char) {
    code == 'R' || code == 'C'
  }

  /** How many tokens a record takes, by its first one. */
  function Width(parts: seq<string>): (w: nat)
    requires parts != []
    ensures 0 < w
  {
    if parts[0] == "" then 1 else if IsMove(parts[0][0]) then 3 else 2
  }

  /** The entry of the first record; one cut short at the end gives none. */
  function Entry(parts: seq<string>): (r: seq<Status>)
    requires parts != []
    ensures |r| <= 1
  {
    var w := Width(parts);
    if w == 1 || |parts| < w || parts[w - 1] == "" then []
    else if w == 3 then [Status(parts[2], Some(parts[1]), Modified)]
    else [Status(parts[1], None, KindOf(parts[0][0]))]
  }

  function StatusesOf(parts: seq<string>): seq<Status>
    decreases |parts|
  {
    if parts == [] then []
    else if |parts| <= Width(parts) then Entry(parts)
    else Entry(parts) + StatusesOf(parts[Width(parts)..])
  }

  predicate NonEmpty(part: string) {
    part != ""
  }

  function Tokens(raw: string): seq<string> {
    Filter(SplitNul(raw), NonEmpty)
  }

  /** The entries still to come at an index, which may point past the end. */
  function StatusesFrom(parts: seq<string>, index: nat): seq<Status> {
    if index < |parts| then StatusesOf(parts[index..]) else []
  }

  ghost predicate Progress(parts: seq<string>, index: nat, statuses: seq<Status>) {
    statuses + StatusesFrom(parts, index) == StatusesOf(parts)
  }

  lemma {:induction false} StatusesFromStep(parts: seq<string>, index: nat)
    requires index < |parts|
    ensures var rest := parts[index..];
      StatusesFrom(parts, index) == Entry(rest) + StatusesFrom(parts, index + Width(rest))
  {
    var rest := parts[index..];
    if Width(rest) < |rest| {
      assert parts[index + Width(rest)..] == rest[Width(rest)..];
    }
  }

  lemma {:induction false} StatusesStep(parts: seq<string>, index: nat, statuses: seq<Status>)
    requires index < |parts| && Progress(parts, index, statuses)
    ensures Progress(parts, index + Width(parts[index..]), statuses + Entry(parts[index..]))
  {
    StatusesFromStep(parts, index);
    var entry, later := Entry(parts[index..]), StatusesFrom(parts, index + Width(parts[index..]));
    assert statuses + (entry + later) == statuses + entry + later;
  }

  lemma {:induction false} EntryAt(parts: seq<string>, index: nat)
    requires index < |parts|
    ensures var w := Width(parts[index..]);
      && w == (if parts[index] == "" then 1 else if IsMove(parts[index][0]) then 3 else 2)
      && Entry(parts[index..])
         == if w == 1 || index + w > |parts| || parts[index + w - 1] == "" then []
            else if w == 3 then [Status(parts[index + 2], Some(parts[index + 1]), Modified)]
            else [Status(parts[index + 1], None, KindOf(parts[index][0]))]
  {
  }

  /** Moves an index over the tokens; reading past the end yields no path and ends the loop. */
  method ParseTokens(parts: seq<string>) returns (statuses: seq<Status>)
    ensures statuses == StatusesOf(parts)
  {
    statuses := [];
    var index: nat := 0;
    assert parts[0..] == parts;
    while index < |parts|
      invariant Progress(parts, index, statuses)
      decreases |parts| - index
    {
      StatusesStep(parts, index, statuses);
      EntryAt(parts, index);
      ghost var done := statuses;
      var status := parts[index];
      index := index + 1;
      if status == "" {
        assert statuses == done + [];
        continue;
      }
      var code := status[0];
      if IsMove(code) {
        var beforePath, path := TokenAt(parts, index), TokenAt(parts, index + 1);
        index := index + 2;
        if path.Some? && path.value != "" {
          statuses := statuses + [Status(path.value, beforePath, Modified)];
        } else {
          assert statuses == done + [];
        }
        continue;
      }
      var path := TokenAt(parts, index);
      index := index + 1;
      if path.None? || path.value == "" {
        assert statuses == done + [];
        continue;
      }
      statuses := statuses + [Status(path.value, None, KindOf(code))];
    }
    assert statuses + [] == statuses;
  }

  method ParseStatus(raw: string) returns (statuses: seq<Status>)
    ensures statuses == StatusesOf(Tokens(raw))
  {
    statuses := ParseTokens(Tokens(raw));
  }

  /** An array read that may miss. */
  function TokenAt(parts: seq<string>, index: nat): Option<string> {
    if index < |parts| then Some(parts[index]) else None
  }

  /** One record as git writes it: a status such as `M` or `R100`, and one or two paths. */
  datatype Record = Plain(status: string, path: string) | Move(status: string, before: string, path: string)

  ghost predicate ValidRecord(r: Record) {
    && r.status != "" && r.path != "" && NUL !in r.status && NUL !in r.path
    && (r.Move? <==> r.status[0] == 'R' || r.status[0] == 'C')
    && (r.Move? ==> r.before != "" && NUL !in r.before)
  }

  ghost predicate ValidRecords(records: seq<Record>) {
    forall i :: 0 <= i < |records| ==> ValidRecord(records[i])
  }

  function RecordTokens(r: Record): seq<string> {
    match r
    case Plain(status, path) => [status, path]
    case Move(status, before, path) => [status, before, path]
  }

  /** A record means an added file, a deleted one, or a modified one with the old path if it moved. */
  function RecordStatus(r: Record): Status
    requires r.status != ""
  {
    match r
    case Plain(status, path) =>
      Status(path, None, match status[0] case 'A' => Added case 'D' => Deleted case _ => Modified)
    case Move(_, before, path) => Status(path, Some(before), Modified)
  }

  function AllTokens(records: seq<Record>): seq<string> {
    if records == [] then [] else RecordTokens(records[0]) + AllTokens(records[1..])
  }

  function AllStatuses(records: seq<Record>): (r: seq<Status>)
    requires forall i :: 0 <= i < |records| ==> records[i].status != ""
    ensures |r| == |records|
  {
    if records == [] then [] else [RecordStatus(records[0])] + AllStatuses(records[1..])
  }

  /** Every token is followed by NUL. */
  function Terminate(tokens: seq<string>): string {
    if tokens == [] then "" else tokens[0] + [NUL] + Terminate(tokens[1..])
  }

  function PrintRecords(records: seq<Record>): string {
    Terminate(AllTokens(records))
  }

  ghost predicate Plausible(tokens: seq<string>) {
    forall i :: 0 <= i < |tokens| ==> tokens[i] != "" && NUL !in tokens[i]
  }

  lemma {:induction false} TokensOfTerminated(tokens: seq<string>)
    requires Plausible(tokens)
    ensures Tokens(Terminate(tokens)) == tokens
  {
    if tokens == [] {
      assert SplitNul("") == [""];
      FilterNone([""], NonEmpty);
    } else {
      TokensOfTerminated(tokens[1..]);
      SplitFirst(tokens[0], Terminate(tokens[1..]));
      var rest := SplitNul(Terminate(tokens[1..]));
      assert ([tokens[0]] + rest)[1..] == rest;
    }
  }

  lemma {:induction false} RecordsArePlausible(records: seq<Record>)
    requires ValidRecords(records)
    ensures Plausible(AllTokens(records))
  {
    if records != [] {
      RecordsArePlausible(records[1..]);
      assert ValidRecord(records[0]);
    }
  }

  lemma {:induction false} StatusesOfRecords(records: seq<Record>)
    requires ValidRecords(records)
    ensures StatusesOf(AllTokens(records)) == AllStatuses(records)
  {
    if records != [] {
      assert ValidRecord(records[0]);
      StatusesOfRecords(records[1..]);
      var tokens, rest := AllTokens(records), AllTokens(records[1..]);
      assert tokens[|RecordTokens(records[0])|..] == rest;
    }
  }

  /** Parsing inverts printing: one entry a record, in order, with the old path of a move kept. */
  lemma {:induction false} NameStatusRoundTrip(records: seq<Record>)
    requires ValidRecords(records)
    ensures StatusesOf(Tokens(PrintRecords(records))) == AllStatuses(records)
  {
    RecordsArePlausible(records);
    TokensOfTerminated(AllTokens(records));
    StatusesOfRecords(records);
  }

  lemma {:induction false} EntryOfPrefix(parts: seq<string>, k: nat)
    requires 0 < k <= |parts|
    ensures Width(parts[..k]) == Width(parts)
    ensures Entry(parts[..k]) == if k < Width(parts) then [] else Entry(parts)
  {
  }

  /** Alignment is never lost: what is read from a cut token list is a prefix of what is read from all. */
  lemma {:induction false} TruncationIsPrefix(parts: seq<string>, k: nat)
    requires k <= |parts|
    ensures StatusesOf(parts[..k]) <= StatusesOf(parts)
    decreases |parts|
  {
    if k > 0 {
      var cut, width := parts[..k], Width(parts);
      EntryOfPrefix(parts, k);
      if k > width {
        TruncationIsPrefix(parts[width..], k - width);
        assert cut[width..] == parts[width..][..k - width];
        assert StatusesOf(cut) == Entry(parts) + StatusesOf(cut[width..]);
        assert StatusesOf(parts) == Entry(parts) + StatusesOf(parts[width..]);
      } else {
        assert StatusesOf(cut) == Entry(cut);
      }
    }
  }

  // ---------------------------------------------------------------------------------------------
  // The memo
  // ---------------------------------------------------------------------------------------------

  datatype Source = Worktree | Staged

  datatype Population = ProductionGovernance | ChangeEvidence

  datatype Options = Options(source: Option<Source>, population: Option<Population>)

  datatype Request = Request(cwd: string, paths: seq<string>, options: Options)

  function SourceName(options: Options): string {
    match options.source case Some(Staged) => "staged" case _ => "worktree"
  }

  function PopulationName(options: Options): string {
    match options.population case Some(ChangeEvidence) => "change-evidence" case _ => "production-governance"
  }

  function CacheKey(r: Request): string {
    r.cwd + [NUL] + (SourceName(r.options) + [NUL] + (PopulationName(r.options) + [NUL] + JoinNul(r.paths)))
  }

  /** Everything the computation depends on, with the defaults filled in. */
  ghost predicate SameQuestion(a: Request, b: Request) {
    && a.cwd == b.cwd && a.paths == b.paths
    && (a.options.source == Some(Staged) <==> b.options.source == Some(Staged))
    && (a.options.population == Some(ChangeEvidence) <==> b.options.population == Some(ChangeEvidence))
  }

  ghost predicate NulFreeRequest(r: Request) {
    NUL !in r.cwd && NulFree(r.paths)
  }

  /** No path at all, and the one empty path, are joined to the same text. */
  ghost predicate EmptyPathMixup(a: Request, b: Request) {
    || (a.paths == [] && b.paths == [""])
    || (a.paths == [""] && b.paths == [])
  }

  function Fields(r: Request): seq<string> {
    [r.cwd, SourceName(r.options), PopulationName(r.options)] + if r.paths == [] then [""] else r.paths
  }

  lemma {:induction false} NamesAreNulFree(options: Options)
    ensures NUL !in SourceName(options) && NUL !in PopulationName(options)
  {
  }

  lemma {:induction false} NamesDiffer(a: Options, b: Options)
    ensures SourceName(a) == SourceName(b) <==> (a.source == Some(Staged) <==> b.source == Some(Staged))
    ensures PopulationName(a) == PopulationName(b) <==> (a.population == Some(ChangeEvidence) <==> b.population == Some(ChangeEvidence))
  {
    assert "staged"[0] != "worktree"[0] && "change-evidence"[0] != "production-governance"[0];
  }

  lemma {:induction false} SplitThree(a: string, b: string, c: string, tail: string)
    requires NUL !in a && NUL !in b && NUL !in c
    ensures SplitNul(a + [NUL] + (b + [NUL] + (c + [NUL] + tail))) == [a, b, c] + SplitNul(tail)
  {
    var rest := c + [NUL] + tail;
    var more := b + [NUL] + rest;
    SplitFirst(c, tail);
    SplitFirst(b, rest);
    SplitFirst(a, more);
  }

  lemma {:induction false} KeySplits(r: Request)
    requires NulFreeRequest(r)
    ensures SplitNul(CacheKey(r)) == Fields(r)
  {
    NamesAreNulFree(r.options);
    var paths := if r.paths == [] then [""] else r.paths;
    SplitJoinNul(paths);
    SplitThree(r.cwd, SourceName(r.options), PopulationName(r.options), JoinNul(r.paths));
  }

  /** Two requests share a key exactly when they ask the same question, or ask it once for no path
      and once for the empty path. */
  lemma {:induction false} SharedKeyIff(a: Request, b: Request)
    requires NulFreeRequest(a) && NulFreeRequest(b)
    ensures CacheKey(a) == CacheKey(b) <==> SameQuestion(a, b) || (SameQuestion(a, b.(paths := a.paths)) && EmptyPathMixup(a, b))
  {
    KeySplits(a);
    KeySplits(b);
    NamesDiffer(a.options, b.options);
    if CacheKey(a) == CacheKey(b) {
      var f, g := Fields(a), Fields(b);
      assert f[0] == g[0] && f[1] == g[1] && f[2] == g[2] && f[3..] == g[3..];
      assert f[3..] == if a.paths == [] then [""] else a.paths;
      assert g[3..] == if b.paths == [] then [""] else b.paths;
    }
  }

  /** `compute` answers by the question asked, whichever way the defaults are written. */
  ghost predicate Respects<Repo(!new), Context>(compute: (Repo, Request) -> Context) {
    forall repo, a, b :: SameQuestion(a, b) ==> compute(repo, a) == compute(repo, b)
  }

  class ChangeSets<Context(==)> {
    var cache: map<string, Context>

    constructor ()
      ensures cache == map[]
    {
      cache := map[];
    }

    method Reset()
      modifies this
      ensures cache == map[]
    {
      cache := map[];
    }

    method Collect(compute: Request -> Context, r: Request) returns (answer: Context)
      modifies this
      ensures (answer, cache) == Collected(old(cache), r, compute(r))
    {
      var key := CacheKey(r);
      if key in cache {
        return cache[key];
      }
      answer := compute(r);
      cache := cache[key := answer];
    }
  }

  /** A stored answer wins over the computed one, which is stored otherwise. */
  function Collected<Context>(cache: map<string, Context>, r: Request, computed: Context): (Context, map<string, Context>) {
    var key := CacheKey(r);
    if key in cache then (cache[key], cache) else (computed, cache[key := computed])
  }

  /** A request whose paths are all non-empty. */
  ghost predicate Clean(r: Request) {
    NulFreeRequest(r) && "" !in r.paths
  }

  /** Every stored answer is the one a fresh computation gives. */
  ghost predicate Fresh<Repo(!new), Context>(cache: map<string, Context>, compute: (Repo, Request) -> Context, repo: Repo) {
    forall r {:trigger CacheKey(r)} :: Clean(r) && CacheKey(r) in cache ==> cache[CacheKey(r)] == compute(repo, r)
  }

  datatype Event<Repo> = Ask(request: Request) | Change(repo: Repo) | Reset

  /** Between a change of the repository and the next question there is a reset, and no question
      names the empty path. */
  ghost predicate Disciplined<Repo>(events: seq<Event<Repo>>, changed: bool) {
    events == []
    || match events[0]
       case Ask(r) => !changed && Clean(r) && Disciplined(events[1..], false)
       case Change(_) => Disciplined(events[1..], true)
       case Reset => Disciplined(events[1..], false)
  }

  /** The answers of a run, each with what a fresh computation would have said at that moment. */
  ghost function Answers<Repo, Context>(cache: map<string, Context>, compute: (Repo, Request) -> Context, repo: Repo,
                                        events: seq<Event<Repo>>): seq<(Context, Context)>
    decreases |events|
  {
    if events == [] then []
    else match events[0]
      case Ask(r) =>
        var (answer, next) := Collected(cache, r, compute(repo, r));
        [(answer, compute(repo, r))] + Answers(next, compute, repo, events[1..])
      case Change(other) => Answers(cache, compute, other, events[1..])
      case Reset => Answers(map[], compute, repo, events[1..])
  }

  lemma {:induction false} AskKeepsFresh<Repo(!new), Context>(cache: map<string, Context>, compute: (Repo, Request) -> Context,
                                                          repo: Repo, r: Request)
    requires Respects(compute) && Clean(r) && Fresh(cache, compute, repo)
    ensures Collected(cache, r, compute(repo, r)).0 == compute(repo, r)
    ensures Fresh(Collected(cache, r, compute(repo, r)).1, compute, repo)
  {
    var next := Collected(cache, r, compute(repo, r)).1;
    forall q {:trigger CacheKey(q)} | Clean(q) && CacheKey(q) in next ensures next[CacheKey(q)] == compute(repo, q) {
      SharedKeyIff(q, r);
      if CacheKey(q) == CacheKey(r) {
        assert SameQuestion(q, r);
      }
    }
  }

  /** Over any run in which a reset separates every change from the next question, the memo never
      answers anything but what a fresh computation would. */
  lemma {:induction false} MemoAgrees<Repo(!new), Context>(cache: map<string, Context>, compute: (Repo, Request) -> Context,
                                                       repo: Repo, events: seq<Event<Repo>>, changed: bool)
    requires Respects(compute) && Disciplined(events, changed)
    requires changed || Fresh(cache, compute, repo)
    ensures forall i :: 0 <= i < |Answers(cache, compute, repo, events)| ==>
              Answers(cache, compute, repo, events)[i].0 == Answers(cache, compute, repo, events)[i].1
    decreases |events|
  {
    if events != [] {
      match events[0] {
        case Ask(r) =>
          AskKeepsFresh(cache, compute, repo, r);
          MemoAgrees(Collected(cache, r, compute(repo, r)).1, compute, repo, events[1..], false);
        case Change(other) =>
          MemoAgrees(cache, compute, other, events[1..], true);
        case Reset =>
          MemoAgrees(map[], compute, repo, events[1..], false);
      }
    }
  }

  /** Right after a question, asking another one from the empty memo's second place is answered
      freshly exactly when the keys differ or the two computations agree. */
  lemma {:induction false} SecondAnswerIff<Repo(!new), Context>(compute: (Repo, Request) -> Context, before: Repo, after: Repo,
                                                            first: Request, second: Request)
    ensures var run := Answers(map[], compute, before, [Ask(first), Change(after), Ask(second)]);
      |run| == 2 && (run[1].0 == run[1].1
                     <==> CacheKey(first) != CacheKey(second) || compute(before, first) == compute(after, second))
  {
    var lastAsk: seq<Event<Repo>> := [Ask(second)];
    var events := [Ask(first), Change(after)] + lastAsk;
    var next := Collected(map[], first, compute(before, first)).1;
    assert events[1..] == [Change(after)] + lastAsk && events[1..][1..] == lastAsk && lastAsk[1..] == [];
    var run, last := Answers(map[], compute, before, events), Answers(next, compute, after, lastAsk);
    assert Answers(next, compute, before, events[1..]) == last;
    assert run == [(compute(before, first), compute(before, first))] + last;
    assert lastAsk[0] == Ask(second);
    assert Answers(Collected(next, second, compute(after, second)).1, compute, after, lastAsk[1..]) == [];
    var answer := if CacheKey(second) in next then next[CacheKey(second)] else compute(after, second);
    assert last == [(answer, compute(after, second))];
    assert [Ask(first), Change(after), Ask(second)] == events;
  }

  /** The empty path is answered with the whole repository's change set. */
  lemma {:induction false} EmptyPathIsStale<Repo(!new), Context>(compute: (Repo, Request) -> Context, repo: Repo,
                                                             cwd: string, options: Options)
    requires compute(repo, Request(cwd, [], options)) != compute(repo, Request(cwd, [""], options))
    ensures var run := Answers(map[], compute, repo,
                               [Ask(Request(cwd, [], options)), Change(repo), Ask(Request(cwd, [""], options))]);
      |run| == 2 && run[1].0 != run[1].1
  {
    SecondAnswerIff(compute, repo, repo, Request(cwd, [], options), Request(cwd, [""], options));
  }
}
