/** Definition-heavy files: those above the 95th percentile of their language in declaration lines
    and in lines. */
module DefinitionCandidates {
  import opened OrderStatistics
  import opened Seqs

  datatype Metric = Metric(path: string, language: Option<string>, declarationLoc: Option<nat>, loc: Option<nat>)

  datatype Row = Row(decl: nat, loc: nat)

  datatype Thresholds = Thresholds(declP95: nat, locP95: nat)

  function OrElse<T>(o: Option<T>, fallback: T): T {
    match o case Some(v) => v case None => fallback
  }

  function LanguageOf(m: Metric): string {
    OrElse(m.language, "unknown")
  }

  function RowOf(m: Metric): Row {
    Row(OrElse(m.declarationLoc, 0), OrElse(m.loc, 0))
  }

  /** The rows of one language, in order. */
  function RowsOf(metrics: seq<Metric>, language: string): seq<Row> {
    if metrics == [] then []
    else
      var front, last := metrics[..|metrics| - 1], metrics[|metrics| - 1];
      RowsOf(front, language) + if LanguageOf(last) == language then [RowOf(last)] else []
  }

  function Decls(rows: seq<Row>): (r: seq<nat>)
    ensures |r| == |rows|
  {
    if rows == [] then [] else [rows[0].decl] + Decls(rows[1..])
  }

  function Locs(rows: seq<Row>): (r: seq<nat>)
    ensures |r| == |rows|
  {
    if rows == [] then [] else [rows[0].loc] + Locs(rows[1..])
  }

  function ThresholdsOf(rows: seq<Row>): Thresholds {
    Thresholds(P95(Decls(rows)), P95(Locs(rows)))
  }

  ghost predicate IsGrouping(metrics: seq<Metric>, byLang: map<string, seq<Row>>) {
    && (forall language :: language in byLang <==> RowsOf(metrics, language) != [])
    && forall language :: language in byLang ==> byLang[language] == RowsOf(metrics, language)
  }

  method GroupByLanguage(metrics: seq<Metric>) returns (byLang: map<string, seq<Row>>, languages: seq<string>)
    ensures IsGrouping(metrics, byLang) && Distinct(languages) && forall language :: language in languages <==> language in byLang
  {
    byLang, languages := map[], [];
    for i := 0 to |metrics|
      invariant IsGrouping(metrics[..i], byLang)
      invariant Distinct(languages) && forall language :: language in languages <==> language in byLang
    {
      var language, row := LanguageOf(metrics[i]), RowOf(metrics[i]);
      assert metrics[..i + 1] == metrics[..i] + [metrics[i]];
      forall l ensures RowsOf(metrics[..i + 1], l) == RowsOf(metrics[..i], l) + if language == l then [row] else [] {
        RowsOfAppend(metrics[..i], metrics[i], l);
      }
      if language in byLang {
        byLang := byLang[language := byLang[language] + [row]];
      } else {
        byLang := byLang[language := [row]];
        languages := languages + [language];
      }
    }
    assert metrics[..|metrics|] == metrics;
  }

  lemma {:induction false} RowsOfAppend(metrics: seq<Metric>, m: Metric, language: string)
    ensures RowsOf(metrics + [m], language) == RowsOf(metrics, language) + if LanguageOf(m) == language then [RowOf(m)] else []
  {
    assert (metrics + [m])[..|metrics|] == metrics;
  }

  method LanguageDefinitionThresholds(metrics: seq<Metric>) returns (thresholds: map<string, Thresholds>)
    ensures forall language :: language in thresholds <==> RowsOf(metrics, language) != []
    ensures forall language :: language in thresholds ==> thresholds[language] == ThresholdsOf(RowsOf(metrics, language))
  {
    var byLang, languages := GroupByLanguage(metrics);
    thresholds := map[];
    for i := 0 to |languages|
      invariant forall language :: language in thresholds <==> language in languages[..i]
      invariant forall language :: language in thresholds ==> thresholds[language] == ThresholdsOf(RowsOf(metrics, language))
    {
      thresholds := thresholds[languages[i] := ThresholdsOf(byLang[languages[i]])];
    }
  }

  predicate IsCandidate(m: Metric, thresholds: map<string, Thresholds>) {
    && LanguageOf(m) in thresholds
    && var t := thresholds[LanguageOf(m)];
       t.declP95 != 0 && RowOf(m).decl > t.declP95 && RowOf(m).loc > t.locP95
  }

  /** Stable insertion by falling declaration lines: `m` stays before the equal ones after it. */
  function InsertDown(m: Metric, s: seq<Metric>): (r: seq<Metric>)
    ensures |r| == |s| + 1
  {
    if s == [] || RowOf(m).decl >= RowOf(s[0]).decl then [m] + s else [s[0]] + InsertDown(m, s[1..])
  }

  function SortDown(s: seq<Metric>): (r: seq<Metric>)
    ensures |r| == |s|
  {
    if s == [] then [] else InsertDown(s[0], SortDown(s[1..]))
  }

  function Keep(metrics: seq<Metric>, thresholds: map<string, Thresholds>): seq<Metric> {
    if metrics == [] then []
    else (if IsCandidate(metrics[0], thresholds) then [metrics[0]] else []) + Keep(metrics[1..], thresholds)
  }

  method DefinitionSurfaceCandidateMetrics(metrics: seq<Metric>) returns (candidates: seq<Metric>)
    ensures IsFalling(candidates)
    ensures forall decl :: WithDecl(candidates, decl) == WithDecl(Chosen(metrics, metrics), decl)
    ensures forall language :: CountOf(candidates, language) == CountOf(Chosen(metrics, metrics), language)
  {
    var thresholds := LanguageDefinitionThresholds(metrics);
    candidates := SortDown(Keep(metrics, thresholds));
    KeepIsChosen(metrics, thresholds, metrics);
    SortDownFalls(Chosen(metrics, metrics));
    forall decl ensures WithDecl(candidates, decl) == WithDecl(Chosen(metrics, metrics), decl) {
      SortDownIsStable(Chosen(metrics, metrics), decl);
    }
    forall language ensures CountOf(candidates, language) == CountOf(Chosen(metrics, metrics), language) {
      SortDownCount(Chosen(metrics, metrics), language);
    }
  }

  // ---------------------------------------------------------------------------------------------
  // What the candidates are
  // ---------------------------------------------------------------------------------------------

  ghost predicate IsFalling(s: seq<Metric>) {
    forall i, j :: 0 <= i < j < |s| ==> RowOf(s[i]).decl >= RowOf(s[j]).decl
  }

  /** The definition without maps: above both percentiles of the rows of its own language. */
  ghost predicate Qualifies(m: Metric, metrics: seq<Metric>) {
    var t := ThresholdsOf(RowsOf(metrics, LanguageOf(m)));
    t.declP95 != 0 && RowOf(m).decl > t.declP95 && RowOf(m).loc > t.locP95
  }

  /** Those among `some` that qualify within `all`, in order. */
  ghost function Chosen(some: seq<Metric>, all: seq<Metric>): seq<Metric> {
    if some == [] then [] else (if Qualifies(some[0], all) then [some[0]] else []) + Chosen(some[1..], all)
  }

  /** The metrics with that many declaration lines, in order. */
  function WithDecl(s: seq<Metric>, decl: nat): seq<Metric> {
    if s == [] then [] else (if RowOf(s[0]).decl == decl then [s[0]] else []) + WithDecl(s[1..], decl)
  }

  function CountOf(s: seq<Metric>, language: string): nat {
    if s == [] then 0 else (if LanguageOf(s[0]) == language then 1 else 0) + CountOf(s[1..], language)
  }

  ghost predicate AreThresholds(metrics: seq<Metric>, thresholds: map<string, Thresholds>) {
    && (forall language :: language in thresholds <==> RowsOf(metrics, language) != [])
    && forall language :: language in thresholds ==> thresholds[language] == ThresholdsOf(RowsOf(metrics, language))
  }

  lemma {:induction false} KeepIsChosen(some: seq<Metric>, thresholds: map<string, Thresholds>, all: seq<Metric>)
    requires AreThresholds(all, thresholds)
    ensures Keep(some, thresholds) == Chosen(some, all)
  {
    if some != [] {
      KeepIsChosen(some[1..], thresholds, all);
      assert RowsOf(all, LanguageOf(some[0])) == [] ==> ThresholdsOf(RowsOf(all, LanguageOf(some[0]))).declP95 == 0;
    }
  }

  lemma {:induction false} InsertDownFalls(m: Metric, s: seq<Metric>)
    requires IsFalling(s)
    ensures IsFalling(InsertDown(m, s))
    ensures forall x :: x in InsertDown(m, s) ==> x == m || x in s
  {
    if !(s == [] || RowOf(m).decl >= RowOf(s[0]).decl) {
      InsertDownFalls(m, s[1..]);
      var rest := InsertDown(m, s[1..]);
      forall j | 0 <= j < |rest| ensures RowOf(s[0]).decl >= RowOf(rest[j]).decl {
        assert rest[j] == m || rest[j] in s[1..];
      }
    }
  }

  lemma {:induction false} SortDownFalls(s: seq<Metric>)
    ensures IsFalling(SortDown(s))
  {
    if s != [] {
      SortDownFalls(s[1..]);
      InsertDownFalls(s[0], SortDown(s[1..]));
    }
  }

  lemma {:induction false} InsertDownIsStable(m: Metric, s: seq<Metric>, decl: nat)
    ensures WithDecl(InsertDown(m, s), decl) == (if RowOf(m).decl == decl then [m] else []) + WithDecl(s, decl)
  {
    if s == [] || RowOf(m).decl >= RowOf(s[0]).decl {
      WithDeclFirst(m, s, decl);
    } else {
      InsertDownIsStable(m, s[1..], decl);
      WithDeclFirst(s[0], InsertDown(m, s[1..]), decl);
      WithDeclFirst(s[0], s[1..], decl);
      assert s == [s[0]] + s[1..];
    }
  }

  lemma {:induction false} WithDeclFirst(m: Metric, s: seq<Metric>, decl: nat)
    ensures WithDecl([m] + s, decl) == (if RowOf(m).decl == decl then [m] else []) + WithDecl(s, decl)
  {
    assert ([m] + s)[1..] == s;
  }

  /** Sorting keeps every metric, and keeps the order of those with equally many declaration lines. */
  lemma {:induction false} SortDownIsStable(s: seq<Metric>, decl: nat)
    ensures WithDecl(SortDown(s), decl) == WithDecl(s, decl)
  {
    if s != [] {
      SortDownIsStable(s[1..], decl);
      InsertDownIsStable(s[0], SortDown(s[1..]), decl);
    }
  }

  lemma {:induction false} InsertDownCount(m: Metric, s: seq<Metric>, language: string)
    ensures CountOf(InsertDown(m, s), language) == (if LanguageOf(m) == language then 1 else 0) + CountOf(s, language)
  {
    if s == [] || RowOf(m).decl >= RowOf(s[0]).decl {
      assert ([m] + s)[1..] == s;
    } else {
      InsertDownCount(m, s[1..], language);
      assert InsertDown(m, s)[1..] == InsertDown(m, s[1..]);
    }
  }

  lemma {:induction false} SortDownCount(s: seq<Metric>, language: string)
    ensures CountOf(SortDown(s), language) == CountOf(s, language)
  {
    if s != [] {
      SortDownCount(s[1..], language);
      InsertDownCount(s[0], SortDown(s[1..]), language);
    }
  }

  // ---------------------------------------------------------------------------------------------
  // How many there can be
  // ---------------------------------------------------------------------------------------------

  lemma {:induction false} RowsOfCons(m: Metric, rest: seq<Metric>, language: string)
    ensures RowsOf([m] + rest, language) == (if LanguageOf(m) == language then [RowOf(m)] else []) + RowsOf(rest, language)
    decreases |rest|
  {
    var all := [m] + rest;
    if rest == [] {
      assert all[..0] == [];
    } else {
      var front, last := rest[..|rest| - 1], rest[|rest| - 1];
      RowsOfCons(m, front, language);
      assert all[..|all| - 1] == [m] + front && all[|all| - 1] == last;
    }
  }

  /** Every chosen metric of a language is above that language's percentile. */
  lemma {:induction false} ChosenAreAbove(some: seq<Metric>, all: seq<Metric>, language: string)
    ensures CountOf(Chosen(some, all), language) <= CountAbove(Decls(RowsOf(some, language)), P95(Decls(RowsOf(all, language))))
  {
    if some != [] {
      ChosenAreAbove(some[1..], all, language);
      assert some == [some[0]] + some[1..];
      RowsOfCons(some[0], some[1..], language);
      var rows := RowsOf(some[1..], language);
      assert ([RowOf(some[0])] + rows)[1..] == rows;
      assert [] + rows == rows;
      var rest := Chosen(some[1..], all);
      assert ([some[0]] + rest)[1..] == rest && [] + rest == rest;
    }
  }

  /** A language with `n` files has at most `n - 1 - floor(95n / 100)` candidates: none up to twenty
      files, fewer than one file in twenty beyond. */
  lemma {:induction false} FewCandidates(metrics: seq<Metric>, language: string)
    ensures var n := |RowsOf(metrics, language)|;
      && (n > 0 ==> CountOf(Chosen(metrics, metrics), language) <= n - 1 - 95 * n / 100)
      && (n <= 20 ==> CountOf(Chosen(metrics, metrics), language) == 0)
      && 20 * CountOf(Chosen(metrics, metrics), language) <= n
  {
    var decls := Decls(RowsOf(metrics, language));
    ChosenAreAbove(metrics, metrics, language);
    if decls != [] {
      FewAboveP95(decls);
    }
  }

  // ---------------------------------------------------------------------------------------------
  // Which metrics are chosen
  // ---------------------------------------------------------------------------------------------

  /** Metrics without a language count as one language of that name. */
  predicate SameLanguage(a: Metric, b: Metric) {
    a.language == b.language || (a.language in {None, Some("unknown")} && b.language in {None, Some("unknown")})
  }

  /** A missing number counts as none. */
  function OrZero(lines: Option<nat>): nat {
    if lines.Some? then lines.value else 0
  }

  function DeclLines(metrics: seq<Metric>): (r: seq<nat>)
    ensures |r| == |metrics| && forall i :: 0 <= i < |r| ==> r[i] == OrZero(metrics[i].declarationLoc)
  {
    seq(|metrics|, i requires 0 <= i < |metrics| => OrZero(metrics[i].declarationLoc))
  }

  function LocLines(metrics: seq<Metric>): (r: seq<nat>)
    ensures |r| == |metrics| && forall i :: 0 <= i < |r| ==> r[i] == OrZero(metrics[i].loc)
  {
    seq(|metrics|, i requires 0 <= i < |metrics| => OrZero(metrics[i].loc))
  }

  /** Above the percentile of its language in both numbers, with a language that declares anything. */
  ghost predicate StandsOut(m: Metric, metrics: seq<Metric>) {
    var peers := Filter(metrics, x => SameLanguage(x, m));
    exists decl: nat, loc: nat ::
      && IsP95(DeclLines(peers), decl) && IsP95(LocLines(peers), loc)
      && 0 < decl < OrZero(m.declarationLoc) && loc < OrZero(m.loc)
  }

  lemma {:induction false} DeclsAppend(rows: seq<Row>, row: Row)
    ensures Decls(rows + [row]) == Decls(rows) + [row.decl] && Locs(rows + [row]) == Locs(rows) + [row.loc]
  {
    if rows == [] {
      assert rows + [row] == [row] && [row][1..] == [];
    } else {
      assert (rows + [row])[1..] == rows[1..] + [row];
      DeclsAppend(rows[1..], row);
    }
  }

  lemma {:induction false} PeersAre(metrics: seq<Metric>, m: Metric)
    ensures var peers := Filter(metrics, x => SameLanguage(x, m));
      Decls(RowsOf(metrics, LanguageOf(m))) == DeclLines(peers) && Locs(RowsOf(metrics, LanguageOf(m))) == LocLines(peers)
  {
    if metrics != [] {
      var front, last := metrics[..|metrics| - 1], metrics[|metrics| - 1];
      var before := Filter(front, x => SameLanguage(x, m));
      PeersAre(front, m);
      assert metrics == front + [last];
      FilterAppend(front, last, x => SameLanguage(x, m));
      var rows := RowsOf(front, LanguageOf(m));
      if LanguageOf(last) == LanguageOf(m) {
        DeclsAppend(rows, RowOf(last));
        LinesAppend(before, last);
      } else {
        assert rows + [] == rows && before + [] == before;
      }
    }
  }

  lemma {:induction false} LinesAppend(metrics: seq<Metric>, m: Metric)
    ensures DeclLines(metrics + [m]) == DeclLines(metrics) + [RowOf(m).decl]
    ensures LocLines(metrics + [m]) == LocLines(metrics) + [RowOf(m).loc]
  {
  }

  /** A metric qualifies exactly when it stands out. */
  lemma {:induction false} QualifiesIff(m: Metric, metrics: seq<Metric>)
    requires m in metrics
    ensures Qualifies(m, metrics) <==> StandsOut(m, metrics)
  {
    var peers := Filter(metrics, x => SameLanguage(x, m));
    PeersAre(metrics, m);
    assert m in peers;
    var decls, locs := DeclLines(peers), LocLines(peers);
    forall v: nat ensures v == P95(decls) <==> IsP95(decls, v) {
      P95Iff(decls, v);
    }
    forall v: nat ensures v == P95(locs) <==> IsP95(locs, v) {
      P95Iff(locs, v);
    }
    if Qualifies(m, metrics) {
      assert IsP95(decls, P95(decls)) && IsP95(locs, P95(locs));
    }
    if StandsOut(m, metrics) {
      var decl: nat, loc: nat :| IsP95(decls, decl) && IsP95(locs, loc) && 0 < decl < OrZero(m.declarationLoc) && loc < OrZero(m.loc);
    }
  }

  /** The candidates before sorting are the metrics that stand out, in order. */
  lemma {:induction false} ChosenAre(some: seq<Metric>, metrics: seq<Metric>)
    requires forall m :: m in some ==> m in metrics
    ensures Chosen(some, metrics) == Filter(some, m => StandsOut(m, metrics))
  {
    if some != [] {
      ChosenAre(some[1..], metrics);
      QualifiesIff(some[0], metrics);
    }
  }
}
