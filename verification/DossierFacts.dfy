/** What a dossier says, in terms of the profile, the reports and the reverse graph alone. */
module DossierFacts {
  import opened Seqs
  import opened ChangeSurface

  // ---------------------------------------------------------------------------------------------
  // The inputs
  // ---------------------------------------------------------------------------------------------

  predicate StartsWith(s: string, prefix: string) {
    |prefix| <= |s| && s[..|prefix|] == prefix
  }

  /** The profile changes this declaration; changes of imports do not count. */
  ghost predicate Declares(p: Profile, anchor: string) {
    !StartsWith(anchor, "import:") && exists change :: change in p.changes && change.anchor == anchor
  }

  /** All of the anchor, or what follows some dot of it. */
  ghost predicate IsTail(anchor: string, leaf: string) {
    anchor == leaf || exists i :: 0 <= i < |anchor| && anchor[i] == '.' && leaf == anchor[i + 1..]
  }

  /** `leaf` is what follows the last dot of the anchor, or all of it. */
  ghost predicate IsLeaf(anchor: string, leaf: string) {
    '.' !in leaf && IsTail(anchor, leaf)
  }

  predicate WholeFile(leaf: string) {
    leaf == "file" || StartsWith(leaf, "manual:")
  }

  /** Some fact of the file, about that declaration or about any if the change concerns the whole file,
      is a reference from `user`, which is another file. */
  ghost predicate Confirms(facts: seq<Fact>, file: string, anchor: string, user: string) {
    user != file && exists f, leaf ::
      f in facts && f.file == file && user in f.references && IsLeaf(anchor, leaf) && (WholeFile(leaf) || f.name == leaf)
  }

  ghost predicate Confirmed(facts: seq<Fact>, p: Profile, user: string) {
    exists anchor :: Declares(p, anchor) && Confirms(facts, p.file, anchor, user)
  }

  /** The reverse graph has a file that is not `file` itself among its importers. */
  ghost predicate StaticUser(file: string, c: Context, user: string) {
    && user != file && c.toAbsolute(file) in c.reverseEdges
    && exists importer :: importer in c.reverseEdges[c.toAbsolute(file)] && c.toRelative(importer) == user
  }

  /** `r` is the first report of the language. */
  ghost predicate IsFirstReport(reports: seq<Report>, language: string, r: Report) {
    exists i :: 0 <= i < |reports| && reports[i] == r && r.language == language
                && forall j :: 0 <= j < i ==> reports[j].language != language
  }

  ghost predicate HasReport(reports: seq<Report>, language: string) {
    exists r :: r in reports && r.language == language
  }

  /** The report says that its references are complete, or, if it does not say, has repository references
      and gives no reason that betrays the contrary. */
  ghost predicate SaysComplete(r: Report, c: Context) {
    match r.incompleteReferences
    case Some(incomplete) => incomplete == false
    case None => r.repositoryReferences && !c.betrays(r.reason)
  }

  // ---------------------------------------------------------------------------------------------
  // What the functions of the classification compute
  // ---------------------------------------------------------------------------------------------

  lemma {:induction false} LeafIs(anchor: string, leaf: string)
    ensures IsLeaf(anchor, leaf) <==> leaf == LeafName(anchor)
  {
    if anchor != "" {
      var n := |anchor| - 1;
      var front, last := anchor[..n], anchor[n];
      if last == '.' {
        assert anchor[n + 1..] == "";
        if leaf != "" && IsTail(anchor, leaf) {
          EndsInDot(anchor, leaf);
        }
      } else {
        LeafOfFront(anchor, leaf);
        if leaf != "" {
          LeafIs(front, leaf[..|leaf| - 1]);
        }
      }
    }
  }

  lemma {:induction false} EndsInDot(anchor: string, leaf: string)
    requires anchor != "" && anchor[|anchor| - 1] == '.' && leaf != "" && IsTail(anchor, leaf)
    ensures '.' in leaf
  {
    assert leaf[|leaf| - 1] == '.';
  }

  /** Before an ordinary last character the leaf goes on. */
  lemma {:induction false} LeafOfFront(anchor: string, leaf: string)
    requires anchor != "" && anchor[|anchor| - 1] != '.'
    ensures IsLeaf(anchor, leaf) <==>
            leaf != "" && leaf[|leaf| - 1] == anchor[|anchor| - 1] && IsLeaf(anchor[..|anchor| - 1], leaf[..|leaf| - 1])
  {
    if IsTail(anchor, leaf) {
      ShorterTail(anchor, leaf);
    }
    if leaf != "" {
      var n := |leaf| - 1;
      assert leaf == leaf[..n] + [leaf[n]];
      if leaf[n] == anchor[|anchor| - 1] && IsTail(anchor[..|anchor| - 1], leaf[..n]) {
        LongerTail(anchor[..|anchor| - 1], leaf[..n], leaf[n]);
        assert anchor == anchor[..|anchor| - 1] + [leaf[n]];
      }
    }
  }

  lemma {:induction false} ShorterTail(anchor: string, leaf: string)
    requires anchor != "" && anchor[|anchor| - 1] != '.' && IsTail(anchor, leaf)
    ensures leaf != "" && leaf[|leaf| - 1] == anchor[|anchor| - 1] && IsTail(anchor[..|anchor| - 1], leaf[..|leaf| - 1])
  {
    if anchor != leaf {
      var front := anchor[..|anchor| - 1];
      var i :| 0 <= i < |anchor| && anchor[i] == '.' && leaf == anchor[i + 1..];
      assert front[i] == '.' && leaf[..|leaf| - 1] == front[i + 1..];
    }
  }

  lemma {:induction false} LongerTail(anchor: string, leaf: string, c: char)
    requires IsTail(anchor, leaf)
    ensures IsTail(anchor + [c], leaf + [c])
  {
    if anchor != leaf {
      var i :| 0 <= i < |anchor| && anchor[i] == '.' && leaf == anchor[i + 1..];
      assert (anchor + [c])[i] == '.' && leaf + [c] == (anchor + [c])[i + 1..];
    }
  }

  lemma {:induction false} PrefixIs(s: string, prefix: string)
    ensures prefix <= s <==> StartsWith(s, prefix)
  {
  }

  lemma {:induction false} ConfirmsIs(facts: seq<Fact>, file: string, anchor: string, user: string)
    ensures user in ConsumersOf(facts, file)(anchor) <==> Confirms(facts, file, anchor, user)
  {
    var leaf := LeafName(anchor);
    forall l ensures IsLeaf(anchor, l) <==> l == leaf {
      LeafIs(anchor, l);
    }
    PrefixIs(leaf, "manual:");
    assert IsLeaf(anchor, leaf);
  }

  lemma {:induction false} DeclaresIs(p: Profile, anchor: string)
    ensures anchor in Anchors(DeclarationChanges(p)) <==> Declares(p, anchor)
  {
    var changes := DeclarationChanges(p);
    if anchor in Anchors(changes) {
      var change := AnchorOf(changes, anchor);
      PrefixIs(change.anchor, "import:");
    }
    if Declares(p, anchor) {
      var change :| change in p.changes && change.anchor == anchor;
      PrefixIs(change.anchor, "import:");
      assert change in changes;
      var i :| 0 <= i < |changes| && changes[i] == change;
      assert Anchors(changes)[i] == anchor;
    }
  }

  lemma {:induction false} ConfirmedIs(facts: seq<Fact>, p: Profile, user: string)
    ensures user in SymbolFiles(DeclarationChanges(p), ConsumersOf(facts, p.file)) <==> Confirmed(facts, p, user)
  {
    var changes, of := DeclarationChanges(p), ConsumersOf(facts, p.file);
    if user in SymbolFiles(changes, of) {
      var anchor := FromSomeAnchor(changes, of, user);
      DeclaresIs(p, anchor);
      ConfirmsIs(facts, p.file, anchor, user);
    }
    if Confirmed(facts, p, user) {
      var anchor :| Declares(p, anchor) && Confirms(facts, p.file, anchor, user);
      DeclaresIs(p, anchor);
      ConfirmsIs(facts, p.file, anchor, user);
      InSymbolFiles(changes, of, anchor);
    }
  }

  lemma {:induction false} StaticUserIs(file: string, c: Context, user: string)
    ensures user in StaticConsumers(file, c) <==> StaticUser(file, c, user)
  {
  }

  lemma {:induction false} FirstReportIs(reports: seq<Report>, language: string)
    ensures FindReport(reports, language).None? <==> !HasReport(reports, language)
    ensures FindReport(reports, language).Some? ==> IsFirstReport(reports, language, FindReport(reports, language).value)
  {
    if reports != [] {
      FirstReportIs(reports[1..], language);
      assert reports == [reports[0]] + reports[1..];
      if reports[0].language != language && FindReport(reports, language).Some? {
        var r := FindReport(reports, language).value;
        var i :| 0 <= i < |reports[1..]| && reports[1..][i] == r && forall j :: 0 <= j < i ==> reports[1..][j].language != language;
        assert reports[i + 1] == r;
        forall j | 0 <= j < i + 1 ensures reports[j].language != language {
          assert j > 0 ==> reports[j] == reports[1..][j - 1];
        }
      }
    }
  }

  lemma {:induction false} OneFirstReport(reports: seq<Report>, language: string, a: Report, b: Report)
    requires IsFirstReport(reports, language, a) && IsFirstReport(reports, language, b)
    ensures a == b
  {
  }

  // ---------------------------------------------------------------------------------------------
  // The evidence
  // ---------------------------------------------------------------------------------------------

  ghost predicate AnyConfirmed(facts: seq<Fact>, p: Profile) {
    exists user :: Confirmed(facts, p, user)
  }

  ghost predicate ConfirmedWithin(facts: seq<Fact>, p: Profile, c: Context) {
    exists user :: Confirmed(facts, p, user) && StaticUser(p.file, c, user)
  }

  ghost predicate Bounded(p: Profile, c: Context) {
    exists user :: StaticUser(p.file, c, user)
  }

  lemma {:induction false} FilesAre(p: Profile, facts: seq<Fact>, c: Context)
    ensures var files, bound := SymbolFiles(DeclarationChanges(p), ConsumersOf(facts, p.file)), StaticConsumers(p.file, c);
      && (files == {} <==> !AnyConfirmed(facts, p))
      && (files !! bound <==> !ConfirmedWithin(facts, p, c))
      && (bound == {} <==> !Bounded(p, c))
  {
    var files, bound := SymbolFiles(DeclarationChanges(p), ConsumersOf(facts, p.file)), StaticConsumers(p.file, c);
    forall user ensures user in files <==> Confirmed(facts, p, user) {
      ConfirmedIs(facts, p, user);
    }
    forall user ensures user in bound <==> StaticUser(p.file, c, user) {
      StaticUserIs(p.file, c, user);
    }
    if files != {} {
      var user :| user in files;
    }
    if files * bound != {} {
      var user :| user in files * bound;
    }
  }

  /** A report that is the first of its language supports symbol-level evidence when a consumer it confirms
      is a static one, or when it confirms none and its references are complete. */
  ghost predicate Supports(r: Report, p: Profile, c: Context) {
    r.available && (ConfirmedWithin(r.facts, p, c) || (!AnyConfirmed(r.facts, p) && SaysComplete(r, c)))
  }

  /** Which evidence a profile gets, and why there is a gap. */
  lemma {:induction false} EvidenceIff(p: Profile, reports: seq<Report>, c: Context)
    ensures var d, language := DossierOf(p, reports, c), c.language(p.file);
      && (d.evidence == StaticBoundEmpty <==> !Bounded(p, c))
      && (d.evidence == Symbol <==> Bounded(p, c) && exists r :: IsFirstReport(reports, language, r) && Supports(r, p, c))
  {
    var language := c.language(p.file);
    FirstReportIs(reports, language);
    FilesAre(p, [], c);
    match FindReport(reports, language) {
      case None =>
      case Some(r) =>
        forall q | IsFirstReport(reports, language, q) ensures q == r {
          OneFirstReport(reports, language, q, r);
        }
        FilesAre(p, r.facts, c);
    }
  }

  /** The case of a non-empty bound, an available report and no confirmed consumer: complete references
      alone decide, whichever way the report says so. */
  lemma {:induction false} CompletenessDecides(p: Profile, reports: seq<Report>, c: Context, r: Report)
    requires Bounded(p, c) && IsFirstReport(reports, c.language(p.file), r) && r.available && !AnyConfirmed(r.facts, p)
    ensures var evidence := DossierOf(p, reports, c).evidence;
      && (r.incompleteReferences == Some(false) ==> evidence == Symbol)
      && (r.incompleteReferences == Some(true) ==> evidence == ProviderUnavailable)
      && (r.incompleteReferences == None ==> (evidence == Symbol <==> r.repositoryReferences && !c.betrays(r.reason)))
  {
    EvidenceIff(p, reports, c);
    forall q | IsFirstReport(reports, c.language(p.file), q) ensures q == r {
      OneFirstReport(reports, c.language(p.file), q, r);
    }
  }

  // ---------------------------------------------------------------------------------------------
  // The rest of the dossier
  // ---------------------------------------------------------------------------------------------

  /** File, language, changes and bound are those of the profile, and the gap repeats them. */
  ghost predicate DescribesProfile(d: Dossier, p: Profile, c: Context) {
    && d.file == p.file && d.language == c.language(p.file)
    && d.changes == Filter(p.changes, (change: Change) => !StartsWith(change.anchor, "import:"))
    && (forall user :: user in d.staticConsumers <==> StaticUser(p.file, c, user))
    && (d.gap.Some? ==>
          && d.gap.value.file == d.file && d.gap.value.language == d.language && d.gap.value.kind == d.evidence
          && |d.gap.value.anchors| == |d.changes|
          && forall i :: 0 <= i < |d.changes| ==> d.gap.value.anchors[i] == d.changes[i].anchor)
  }

  /** Who is named for every changed declaration: nobody without a bound, and with symbol-level evidence
      those that the report confirms. */
  ghost predicate NamesConsumers(d: Dossier, p: Profile, reports: seq<Report>, c: Context) {
    match d.evidence
    case ProviderUnavailable => d.consumersByAnchor.None?
    case StaticBoundEmpty =>
      && d.consumersByAnchor.Some? && (forall anchor :: anchor in d.consumersByAnchor.value <==> Declares(p, anchor))
      && forall anchor :: anchor in d.consumersByAnchor.value ==> d.consumersByAnchor.value[anchor] == {}
    case Symbol =>
      && d.consumersByAnchor.Some? && (forall anchor :: anchor in d.consumersByAnchor.value <==> Declares(p, anchor))
      && exists r :: IsFirstReport(reports, d.language, r)
           && forall anchor, user :: anchor in d.consumersByAnchor.value ==>
                (user in d.consumersByAnchor.value[anchor] <==> Confirms(r.facts, p.file, anchor, user))
  }

  /** Why there is a gap. */
  ghost predicate GivesReason(d: Dossier, p: Profile, reports: seq<Report>, c: Context) {
    match d.evidence
    case Symbol => d.gap.None?
    case StaticBoundEmpty => d.gap.Some? && d.gap.value.reason == NotQueried
    case ProviderUnavailable =>
      d.gap.Some? &&
      if !HasReport(reports, d.language) then d.gap.value.reason == ReportMissing
      else exists r :: IsFirstReport(reports, d.language, r)
             && if !r.available then d.gap.value.reason == ToolchainUnavailable(r.reason) else JudgedFor(d, r, p)
  }

  lemma {:induction false} FilterSame<T(!new)>(s: seq<T>, f: T -> bool, g: T -> bool)
    requires forall x :: x in s ==> f(x) == g(x)
    ensures Filter(s, f) == Filter(s, g)
  {
    if s != [] {
      FilterSame(s[1..], f, g);
    }
  }

  lemma {:induction false} DescribesIff(p: Profile, reports: seq<Report>, c: Context)
    ensures DescribesProfile(DossierOf(p, reports, c), p, c)
  {
    GapIffNotSymbol(p, reports, c);
    DossierLanguage(p, reports, c);
    forall change ensures IsDeclaration(change) <==> !StartsWith(change.anchor, "import:") {
      PrefixIs(change.anchor, "import:");
    }
    FilterSame(p.changes, IsDeclaration, (change: Change) => !StartsWith(change.anchor, "import:"));
    forall user ensures user in StaticConsumers(p.file, c) <==> StaticUser(p.file, c, user) {
      StaticUserIs(p.file, c, user);
    }
  }

  lemma {:induction false} DossierLanguage(p: Profile, reports: seq<Report>, c: Context)
    ensures DossierOf(p, reports, c).language == c.language(p.file)
  {
  }

  lemma {:induction false} NamesIff(p: Profile, reports: seq<Report>, c: Context)
    ensures NamesConsumers(DossierOf(p, reports, c), p, reports, c)
  {
    var d := DossierOf(p, reports, c);
    DossierLanguage(p, reports, c);
    if d.evidence == Symbol {
      FirstReportIs(reports, d.language);
      SymbolConsumers(p, reports, c);
      ConsumersAre(p, FindReport(reports, d.language).value.facts);
    } else if d.evidence == StaticBoundEmpty {
      NobodyIsNamed(p, reports, c);
    } else {
      GapIffNotSymbol(p, reports, c);
    }
  }

  lemma {:induction false} NobodyIsNamed(p: Profile, reports: seq<Report>, c: Context)
    requires DossierOf(p, reports, c).evidence == StaticBoundEmpty
    ensures var named := DossierOf(p, reports, c).consumersByAnchor;
      && named.Some? && (forall anchor :: anchor in named.value <==> Declares(p, anchor))
      && forall anchor :: anchor in named.value ==> named.value[anchor] == {}
  {
    GapIffNotSymbol(p, reports, c);
    assert DossierOf(p, reports, c).consumersByAnchor == Some(Consumers(DeclarationChanges(p), Nobody));
    forall anchor ensures anchor in Anchors(DeclarationChanges(p)) <==> Declares(p, anchor) {
      DeclaresIs(p, anchor);
    }
  }

  lemma {:induction false} SymbolConsumers(p: Profile, reports: seq<Report>, c: Context)
    requires DossierOf(p, reports, c).evidence == Symbol
    ensures FindReport(reports, c.language(p.file)).Some?
    ensures DossierOf(p, reports, c).consumersByAnchor
            == Some(Consumers(DeclarationChanges(p), ConsumersOf(FindReport(reports, c.language(p.file)).value.facts, p.file)))
  {
    SymbolShape(p, reports, c);
  }

  lemma {:induction false} ConsumersAre(p: Profile, facts: seq<Fact>)
    ensures var named := Consumers(DeclarationChanges(p), ConsumersOf(facts, p.file));
      && (forall anchor :: anchor in named <==> Declares(p, anchor))
      && forall anchor, user :: anchor in named ==> (user in named[anchor] <==> Confirms(facts, p.file, anchor, user))
  {
    forall anchor ensures anchor in Anchors(DeclarationChanges(p)) <==> Declares(p, anchor) {
      DeclaresIs(p, anchor);
    }
    forall anchor, user ensures user in ConsumersOf(facts, p.file)(anchor) <==> Confirms(facts, p.file, anchor, user) {
      ConfirmsIs(facts, p.file, anchor, user);
    }
  }

  lemma {:induction false} ReasonIff(p: Profile, reports: seq<Report>, c: Context)
    ensures GivesReason(DossierOf(p, reports, c), p, reports, c)
  {
    var d := DossierOf(p, reports, c);
    DossierLanguage(p, reports, c);
    match d.evidence {
      case Symbol => GapIffNotSymbol(p, reports, c);
      case StaticBoundEmpty =>
      case ProviderUnavailable =>
        FirstReportIs(reports, d.language);
        UnavailableReason(p, reports, c);
    }
  }

  lemma {:induction false} UnavailableReason(p: Profile, reports: seq<Report>, c: Context)
    requires DossierOf(p, reports, c).evidence == ProviderUnavailable
    ensures var d := DossierOf(p, reports, c);
      d.gap.Some?
      && match FindReport(reports, c.language(p.file))
         case None => d.gap.value.reason == ReportMissing
         case Some(r) =>
           if !r.available then d.gap.value.reason == ToolchainUnavailable(r.reason) else JudgedFor(d, r, p)
  {
    match FindReport(reports, c.language(p.file)) {
      case None =>
      case Some(r) =>
        if r.available {
          DossierIsJudged(p, reports, c, r);
          JudgedReason(p, c, ReferencesReliable(r, c), r.reason, r.facts);
        }
    }
  }

  /** The reason when the report is available: nobody is confirmed, or nobody within the bound. */
  ghost predicate JudgedFor(d: Dossier, r: Report, p: Profile)
    requires d.gap.Some?
  {
    if !AnyConfirmed(r.facts, p) then d.gap.value.reason == IncompleteReferences(r.reason)
    else exists files: set<string> ::
           && (forall user :: user in files <==> Confirmed(r.facts, p, user))
           && d.gap.value.reason == NoOverlap(|files|, |d.staticConsumers|)
  }

  lemma {:induction false} DossierIsJudged(p: Profile, reports: seq<Report>, c: Context, r: Report)
    requires FindReport(reports, c.language(p.file)) == Some(r) && r.available
    requires DossierOf(p, reports, c).evidence == ProviderUnavailable
    ensures DossierOf(p, reports, c) == Judged(p, c, ReferencesReliable(r, c), r.reason, ConsumersOf(r.facts, p.file))
  {
  }

  lemma {:induction false} JudgedReason(p: Profile, c: Context, reliable: bool, reason: string, facts: seq<Fact>)
    requires Judged(p, c, reliable, reason, ConsumersOf(facts, p.file)).evidence == ProviderUnavailable
    ensures var d := Judged(p, c, reliable, reason, ConsumersOf(facts, p.file));
      d.gap.Some?
      && if !AnyConfirmed(facts, p) then d.gap.value.reason == IncompleteReferences(reason)
         else exists files: set<string> ::
                && (forall user :: user in files <==> Confirmed(facts, p, user))
                && d.gap.value.reason == NoOverlap(|files|, |d.staticConsumers|)
  {
    FilesAre(p, facts, c);
    var files := SymbolFiles(DeclarationChanges(p), ConsumersOf(facts, p.file));
    forall user ensures user in files <==> Confirmed(facts, p, user) {
      ConfirmedIs(facts, p, user);
    }
  }

  /** A profile gets a dossier exactly when it changes something else than imports. */
  lemma {:induction false} ChangingIs(profiles: seq<Profile>)
    ensures ChangingProfiles(profiles) == Filter(profiles, (p: Profile) => exists anchor :: Declares(p, anchor))
  {
    if profiles != [] {
      var front, last := profiles[..|profiles| - 1], profiles[|profiles| - 1];
      ChangingIs(front);
      assert profiles == front + [last];
      FilterAppend(front, last, (p: Profile) => exists anchor :: Declares(p, anchor));
      var changes := DeclarationChanges(last);
      forall anchor ensures anchor in Anchors(changes) <==> Declares(last, anchor) {
        DeclaresIs(last, anchor);
      }
      if changes != [] {
        assert Anchors(changes)[0] in Anchors(changes);
      }
    }
  }
}
