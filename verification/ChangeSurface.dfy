/** Symbol evidence for changed files: one classification, from which the change surface, the list of
    unavailable languages and the gaps are all derived. */
module ChangeSurface {
  import opened Seqs

  datatype Change = Change(anchor: string, kind: string)

  datatype Profile = Profile(file: string, changes: seq<Change>)

  datatype Fact = Fact(file: string, name: string, references: seq<string>)

  datatype Report = Report(language: string, available: bool, facts: seq<Fact>, incompleteReferences: Option<bool>,
                           repositoryReferences: bool, reason: string)

  /** Paths, the language registry, the file-level reverse graph, and the texts that betray an
      unreliable report. */
  datatype Context = Context(toAbsolute: string -> string, toRelative: string -> string, language: string -> string,
                             reverseEdges: map<string, seq<string>>, betrays: string -> bool)

  // ---------------------------------------------------------------------------------------------
  // Changes and consumers
  // ---------------------------------------------------------------------------------------------

  /** A change of an import belongs to the dependency graph. */
  predicate IsDeclaration(c: Change) {
    !("import:" <= c.anchor)
  }

  function DeclarationChanges(p: Profile): seq<Change> {
    Filter(p.changes, IsDeclaration)
  }

  /** The part of an anchor after its last dot. */
  function LeafName(anchor: string): (r: string)
    ensures '.' !in r
  {
    if anchor == "" || anchor[|anchor| - 1] == '.' then ""
    else LeafName(anchor[..|anchor| - 1]) + [anchor[|anchor| - 1]]
  }

  function Anchors(changes: seq<Change>): (r: seq<string>)
    ensures |r| == |changes| && forall i :: 0 <= i < |r| ==> r[i] == changes[i].anchor
  {
    if changes == [] then [] else [changes[0].anchor] + Anchors(changes[1..])
  }

  predicate IsFileLevel(name: string) {
    name == "file" || "manual:" <= name
  }

  function ReferencesReliable(r: Report, c: Context): bool {
    if r.incompleteReferences.Some? then !r.incompleteReferences.value
    else r.repositoryReferences && !c.betrays(r.reason)
  }

  /** The consumers of a file in the reverse graph, as a sorted list without duplicates: a set. */
  function StaticConsumers(file: string, c: Context): (r: set<string>)
    ensures file !in r
  {
    if c.toAbsolute(file) !in c.reverseEdges then {}
    else (set importer | importer in c.reverseEdges[c.toAbsolute(file)] :: c.toRelative(importer)) - {file}
  }

  /** The files other than `file` that refer to its declaration `name`. */
  function ConsumersNamed(facts: seq<Fact>, file: string, name: string): (r: set<string>)
    ensures file !in r
  {
    set f, user | f in facts && f.file == file && f.name == name && user in f.references && user != file :: user
  }

  /** Those that refer to any declaration of it. */
  function ConsumersOfFile(facts: seq<Fact>, file: string): (r: set<string>)
    ensures file !in r
  {
    set f, user | f in facts && f.file == file && user in f.references && user != file :: user
  }

  function ConsumersOfAnchor(facts: seq<Fact>, file: string, anchor: string): set<string> {
    if IsFileLevel(LeafName(anchor)) then ConsumersOfFile(facts, file) else ConsumersNamed(facts, file, LeafName(anchor))
  }

  function ConsumersOf(facts: seq<Fact>, file: string): string -> set<string> {
    anchor => ConsumersOfAnchor(facts, file, anchor)
  }

  /** Each changed declaration with its consumers. */
  ghost predicate PairsConsumers(m: map<string, set<string>>, changes: seq<Change>, of: string -> set<string>) {
    && (forall anchor :: anchor in m <==> anchor in Anchors(changes))
    && forall anchor :: anchor in m ==> m[anchor] == of(anchor)
  }

  /** A lookup with an empty default. */
  function At(byLeaf: map<string, set<string>>, name: string): set<string> {
    if name in byLeaf then byLeaf[name] else {}
  }

  ghost predicate IsLeafIndex(byLeaf: map<string, set<string>>, facts: seq<Fact>, file: string) {
    forall name {:trigger At(byLeaf, name)} :: At(byLeaf, name) == ConsumersNamed(facts, file, name)
  }

  function OtherUsers(references: seq<string>, file: string): set<string> {
    set user | user in references && user != file
  }

  lemma {:induction false} OneMoreFact(facts: seq<Fact>, f: Fact, file: string, name: string)
    ensures ConsumersNamed(facts + [f], file, name)
            == ConsumersNamed(facts, file, name) + if f.file == file && f.name == name then OtherUsers(f.references, file) else {}
  {
    var after := ConsumersNamed(facts + [f], file, name);
    forall user | user in ConsumersNamed(facts, file, name) ensures user in after {
      var g :| g in facts && g.file == file && g.name == name && user in g.references;
      assert g in facts + [f];
    }
    if f.file == file && f.name == name {
      assert f in facts + [f];
    }
  }

  method IndexFacts(facts: seq<Fact>, file: string) returns (byLeaf: map<string, set<string>>)
    ensures IsLeafIndex(byLeaf, facts, file)
  {
    byLeaf := map[];
    for i := 0 to |facts|
      invariant IsLeafIndex(byLeaf, facts[..i], file)
    {
      var f := facts[i];
      assert facts[..i + 1] == facts[..i] + [f];
      ghost var before := byLeaf;
      if f.file == file {
        byLeaf := byLeaf[f.name := At(byLeaf, f.name) + OtherUsers(f.references, file)];
      }
      forall name ensures At(byLeaf, name) == ConsumersNamed(facts[..i + 1], file, name) {
        OneMoreFact(facts[..i], f, file, name);
        assert At(before, name) == ConsumersNamed(facts[..i], file, name);
      }
    }
    assert facts[..|facts|] == facts;
  }

  /** Everyone in the index. */
  function Everyone(byLeaf: map<string, set<string>>): set<string> {
    set name, user | name in byLeaf && user in byLeaf[name] :: user
  }

  lemma {:induction false} EveryoneUsesTheFile(byLeaf: map<string, set<string>>, facts: seq<Fact>, file: string)
    requires IsLeafIndex(byLeaf, facts, file)
    ensures Everyone(byLeaf) == ConsumersOfFile(facts, file)
  {
    forall user | user in Everyone(byLeaf) ensures user in ConsumersOfFile(facts, file) {
      var name :| name in byLeaf && user in byLeaf[name];
      assert user in At(byLeaf, name);
    }
    forall user | user in ConsumersOfFile(facts, file) ensures user in Everyone(byLeaf) {
      var f :| f in facts && f.file == file && user in f.references && user != file;
      assert user in ConsumersNamed(facts, file, f.name);
      assert user in At(byLeaf, f.name);
    }
  }

  lemma {:induction false} OneMoreAnchor(m: map<string, set<string>>, changes: seq<Change>, c: Change, of: string -> set<string>)
    requires PairsConsumers(m, changes, of)
    ensures PairsConsumers(m[c.anchor := of(c.anchor)], changes + [c], of)
  {
    assert Anchors(changes + [c]) == Anchors(changes) + [c.anchor];
  }

  /** What the index holds for an anchor. */
  function Looked(byLeaf: map<string, set<string>>, anchor: string): set<string> {
    if IsFileLevel(LeafName(anchor)) then Everyone(byLeaf) else At(byLeaf, LeafName(anchor))
  }

  lemma {:induction false} LookedIsConsumers(byLeaf: map<string, set<string>>, facts: seq<Fact>, file: string, anchor: string)
    requires IsLeafIndex(byLeaf, facts, file)
    ensures Looked(byLeaf, anchor) == ConsumersOf(facts, file)(anchor)
  {
    EveryoneUsesTheFile(byLeaf, facts, file);
    assert At(byLeaf, LeafName(anchor)) == ConsumersNamed(facts, file, LeafName(anchor));
  }

  method PairAnchors(changes: seq<Change>, byLeaf: map<string, set<string>>, ghost of: string -> set<string>)
    returns (consumers: map<string, set<string>>)
    requires forall anchor :: Looked(byLeaf, anchor) == of(anchor)
    ensures PairsConsumers(consumers, changes, of)
  {
    consumers := map[];
    for i := 0 to |changes|
      invariant PairsConsumers(consumers, changes[..i], of)
    {
      OneMoreAnchor(consumers, changes[..i], changes[i], of);
      assert changes[..i + 1] == changes[..i] + [changes[i]];
      consumers := consumers[changes[i].anchor := Looked(byLeaf, changes[i].anchor)];
    }
    assert changes[..|changes|] == changes;
  }

  method SymbolConsumersByAnchor(file: string, changes: seq<Change>, facts: seq<Fact>) returns (consumers: map<string, set<string>>)
    ensures PairsConsumers(consumers, changes, ConsumersOf(facts, file))
  {
    var byLeaf := IndexFacts(facts, file);
    forall anchor ensures Looked(byLeaf, anchor) == ConsumersOf(facts, file)(anchor) {
      LookedIsConsumers(byLeaf, facts, file, anchor);
    }
    consumers := PairAnchors(changes, byLeaf, ConsumersOf(facts, file));
  }

  // ---------------------------------------------------------------------------------------------
  // The classification
  // ---------------------------------------------------------------------------------------------

  datatype Evidence = Symbol | StaticBoundEmpty | ProviderUnavailable

  /** Why there is a gap. */
  datatype Reason = NotQueried | ReportMissing | ToolchainUnavailable(reason: string) | NoOverlap(symbols: nat, bound: nat)
                  | IncompleteReferences(reason: string)

  datatype Gap = Gap(file: string, language: string, kind: Evidence, anchors: seq<string>, reason: Reason)

  datatype Dossier = Dossier(file: string, language: string, changes: seq<Change>, staticConsumers: set<string>, evidence: Evidence,
                             consumersByAnchor: Option<map<string, set<string>>>, gap: Option<Gap>)

  function FindReport(reports: seq<Report>, language: string): Option<Report> {
    if reports == [] then None else if reports[0].language == language then Some(reports[0]) else FindReport(reports[1..], language)
  }

  /** All consumers of the changes of a file together. */
  function SymbolFiles(changes: seq<Change>, of: string -> set<string>): set<string> {
    if changes == [] then {} else of(changes[0].anchor) + SymbolFiles(changes[1..], of)
  }

  lemma {:induction false} InSymbolFiles(changes: seq<Change>, of: string -> set<string>, anchor: string)
    requires anchor in Anchors(changes)
    ensures of(anchor) <= SymbolFiles(changes, of)
  {
    if anchor != changes[0].anchor {
      InSymbolFiles(changes[1..], of, anchor);
    }
  }

  lemma {:induction false} FromSomeAnchor(changes: seq<Change>, of: string -> set<string>, user: string) returns (anchor: string)
    requires user in SymbolFiles(changes, of)
    ensures anchor in Anchors(changes) && user in of(anchor)
  {
    if user in of(changes[0].anchor) {
      anchor := changes[0].anchor;
    } else {
      anchor := FromSomeAnchor(changes[1..], of, user);
    }
  }

  /** The values of the map are together the confirmed consumers. */
  lemma {:induction false} EveryoneIsSymbolFiles(consumers: map<string, set<string>>, changes: seq<Change>, of: string -> set<string>)
    requires PairsConsumers(consumers, changes, of)
    ensures Everyone(consumers) == SymbolFiles(changes, of)
  {
    forall user | user in Everyone(consumers) ensures user in SymbolFiles(changes, of) {
      var anchor :| anchor in consumers && user in consumers[anchor];
      InSymbolFiles(changes, of, anchor);
    }
    forall user | user in SymbolFiles(changes, of) ensures user in Everyone(consumers) {
      var anchor := FromSomeAnchor(changes, of, user);
      assert user in consumers[anchor];
    }
  }

  function Consumers(changes: seq<Change>, of: string -> set<string>): map<string, set<string>> {
    map anchor | anchor in Anchors(changes) :: of(anchor)
  }

  function Nobody(anchor: string): set<string> {
    {}
  }

  function WithGap(p: Profile, c: Context, kind: Evidence, consumers: Option<map<string, set<string>>>, reason: Reason): Dossier {
    var changes, language := DeclarationChanges(p), c.language(p.file);
    Dossier(p.file, language, changes, StaticConsumers(p.file, c), kind, consumers,
            Some(Gap(p.file, language, kind, Anchors(changes), reason)))
  }

  /** The decision when the static bound is not empty and the provider has answered. */
  function Judged(p: Profile, c: Context, reliable: bool, reason: string, of: string -> set<string>): Dossier {
    var changes, bound := DeclarationChanges(p), StaticConsumers(p.file, c);
    var files := SymbolFiles(changes, of);
    if files != {} && files !! bound then WithGap(p, c, ProviderUnavailable, None, NoOverlap(|files|, |bound|))
    else if !reliable && files == {} then WithGap(p, c, ProviderUnavailable, None, IncompleteReferences(reason))
    else Dossier(p.file, c.language(p.file), changes, bound, Symbol, Some(Consumers(changes, of)), None)
  }

  /** The whole decision for one profile that changes declarations. */
  function DossierOf(p: Profile, reports: seq<Report>, c: Context): Dossier {
    if StaticConsumers(p.file, c) == {} then
      WithGap(p, c, StaticBoundEmpty, Some(Consumers(DeclarationChanges(p), Nobody)), NotQueried)
    else
      match FindReport(reports, c.language(p.file))
      case None => WithGap(p, c, ProviderUnavailable, None, ReportMissing)
      case Some(report) =>
        if !report.available then WithGap(p, c, ProviderUnavailable, None, ToolchainUnavailable(report.reason))
        else Judged(p, c, ReferencesReliable(report, c), report.reason, ConsumersOf(report.facts, p.file))
  }

  function DossiersOf(profiles: seq<Profile>, reports: seq<Report>, c: Context): seq<Dossier> {
    if profiles == [] then []
    else
      var front, last := profiles[..|profiles| - 1], profiles[|profiles| - 1];
      DossiersOf(front, reports, c) + if DeclarationChanges(last) == [] then [] else [DossierOf(last, reports, c)]
  }

  method Judge(p: Profile, c: Context, reliable: bool, reason: string, consumers: map<string, set<string>>, ghost of: string -> set<string>)
    returns (d: Dossier)
    requires PairsConsumers(consumers, DeclarationChanges(p), of)
    ensures d == Judged(p, c, reliable, reason, of)
  {
    var changes, bound := DeclarationChanges(p), StaticConsumers(p.file, c);
    EveryoneIsSymbolFiles(consumers, changes, of);
    var symbolFiles := Everyone(consumers);
    if symbolFiles != {} && symbolFiles !! bound {
      return WithGap(p, c, ProviderUnavailable, None, NoOverlap(|symbolFiles|, |bound|));
    }
    if !reliable && symbolFiles == {} {
      return WithGap(p, c, ProviderUnavailable, None, IncompleteReferences(reason));
    }
    assert consumers == Consumers(changes, of);
    d := Dossier(p.file, c.language(p.file), changes, bound, Symbol, Some(consumers), None);
  }

  method ClassifyProfile(p: Profile, reports: seq<Report>, c: Context) returns (d: Dossier)
    ensures d == DossierOf(p, reports, c)
  {
    var changes := DeclarationChanges(p);
    if StaticConsumers(p.file, c) == {} {
      return WithGap(p, c, StaticBoundEmpty, Some(Consumers(changes, Nobody)), NotQueried);
    }
    var report := FindReport(reports, c.language(p.file));
    if report.None? || !report.value.available {
      return WithGap(p, c, ProviderUnavailable, None, if report.None? then ReportMissing else ToolchainUnavailable(report.value.reason));
    }
    var consumers := SymbolConsumersByAnchor(p.file, changes, report.value.facts);
    d := Judge(p, c, ReferencesReliable(report.value, c), report.value.reason, consumers, ConsumersOf(report.value.facts, p.file));
  }

  method SymbolEvidenceDossiers(profiles: seq<Profile>, reports: seq<Report>, c: Context) returns (dossiers: seq<Dossier>)
    ensures dossiers == DossiersOf(profiles, reports, c)
  {
    dossiers := [];
    for i := 0 to |profiles|
      invariant dossiers == DossiersOf(profiles[..i], reports, c)
    {
      assert profiles[..i + 1][..i] == profiles[..i];
      if DeclarationChanges(profiles[i]) == [] {
        continue;
      }
      var d := ClassifyProfile(profiles[i], reports, c);
      dossiers := dossiers + [d];
    }
    assert profiles[..|profiles|] == profiles;
  }

  // ---------------------------------------------------------------------------------------------
  // What the classification promises
  // ---------------------------------------------------------------------------------------------

  ghost predicate GapsAgree(d: Dossier) {
    && (d.gap.Some? <==> d.evidence != Symbol)
    && (d.gap.Some? ==> d.gap.value.file == d.file && d.gap.value.language == d.language && d.gap.value.kind == d.evidence
                        && d.gap.value.anchors == Anchors(d.changes))
    && (d.consumersByAnchor.None? <==> d.evidence == ProviderUnavailable)
  }

  /** Confirmed consumers that are not empty meet the static bound. */
  ghost predicate MeetsBound(d: Dossier) {
    d.evidence == Symbol && d.consumersByAnchor.Some? && Everyone(d.consumersByAnchor.value) != {} ==>
      !(Everyone(d.consumersByAnchor.value) !! d.staticConsumers)
  }

  /** What holds of the dossier of a profile. */
  ghost predicate Promises(d: Dossier, p: Profile, c: Context) {
    && d.file == p.file && d.changes == DeclarationChanges(p) && d.staticConsumers == StaticConsumers(p.file, c)
    && GapsAgree(d) && MeetsBound(d)
    && (d.evidence == StaticBoundEmpty <==> d.staticConsumers == {})
  }

  lemma {:induction false} GapPromises(p: Profile, c: Context, kind: Evidence, consumers: Option<map<string, set<string>>>, reason: Reason)
    requires kind != Symbol && (kind == StaticBoundEmpty <==> StaticConsumers(p.file, c) == {})
    requires consumers.None? <==> kind == ProviderUnavailable
    ensures Promises(WithGap(p, c, kind, consumers, reason), p, c)
  {
  }

  lemma {:induction false} JudgedPromises(p: Profile, c: Context, reliable: bool, reason: string, of: string -> set<string>)
    requires StaticConsumers(p.file, c) != {}
    ensures Promises(Judged(p, c, reliable, reason, of), p, c)
  {
    var changes, bound := DeclarationChanges(p), StaticConsumers(p.file, c);
    var files := SymbolFiles(changes, of);
    EveryoneIsSymbolFiles(Consumers(changes, of), changes, of);
    if files != {} && files !! bound {
      GapPromises(p, c, ProviderUnavailable, None, NoOverlap(|files|, |bound|));
    } else if !reliable && files == {} {
      GapPromises(p, c, ProviderUnavailable, None, IncompleteReferences(reason));
    }
  }

  /** A gap exists exactly when the evidence is not symbol-level, and confirmed consumers that are not
      empty meet the static bound. */
  lemma {:induction false} GapIffNotSymbol(p: Profile, reports: seq<Report>, c: Context)
    ensures Promises(DossierOf(p, reports, c), p, c)
  {
    if StaticConsumers(p.file, c) == {} {
      GapPromises(p, c, StaticBoundEmpty, Some(Consumers(DeclarationChanges(p), Nobody)), NotQueried);
    } else {
      match FindReport(reports, c.language(p.file)) {
        case None =>
          GapPromises(p, c, ProviderUnavailable, None, ReportMissing);
        case Some(report) =>
          GapPromises(p, c, ProviderUnavailable, None, ToolchainUnavailable(report.reason));
          JudgedPromises(p, c, ReferencesReliable(report, c), report.reason, ConsumersOf(report.facts, p.file));
      }
    }
  }

  /** Symbol-level evidence needs a bound, an available report of the language, and either a confirmed
      consumer within the bound, or none at all and complete references; nothing else. */
  lemma {:induction false} SymbolIff(p: Profile, reports: seq<Report>, c: Context)
    ensures DossierOf(p, reports, c).evidence == Symbol
            <==>
            var bound, report := StaticConsumers(p.file, c), FindReport(reports, c.language(p.file));
            && bound != {} && report.Some? && report.value.available
            && var files := SymbolFiles(DeclarationChanges(p), ConsumersOf(report.value.facts, p.file));
               if files == {} then ReferencesReliable(report.value, c) else exists user :: user in files && user in bound
  {
    var bound, report := StaticConsumers(p.file, c), FindReport(reports, c.language(p.file));
    if bound != {} && report.Some? && report.value.available {
      var files := SymbolFiles(DeclarationChanges(p), ConsumersOf(report.value.facts, p.file));
      if !(files !! bound) {
        assert files * bound != {};
        var user :| user in files * bound;
      }
    }
  }

  /** The change concerns the declaration `name`: by its last part, or because it is one of the whole file. */
  predicate Concerns(change: Change, name: string) {
    IsFileLevel(LeafName(change.anchor)) || LeafName(change.anchor) == name
  }

  /** Every reference to a changed declaration that the report has found comes from the file itself or
      from a static consumer. */
  ghost predicate ReferencesWithinBound(facts: seq<Fact>, p: Profile, bound: set<string>) {
    forall f, change, user ::
      f in facts && f.file == p.file && change in DeclarationChanges(p) && Concerns(change, f.name) && user in f.references
      && user != p.file
      ==> user in bound
  }

  lemma {:induction false} AnchorOf(changes: seq<Change>, anchor: string) returns (change: Change)
    requires anchor in Anchors(changes)
    ensures change in changes && change.anchor == anchor
  {
    var i :| 0 <= i < |changes| && Anchors(changes)[i] == anchor;
    change := changes[i];
  }

  lemma {:induction false} SymbolFilesWithinIff(p: Profile, facts: seq<Fact>, bound: set<string>)
    ensures SymbolFiles(DeclarationChanges(p), ConsumersOf(facts, p.file)) <= bound <==> ReferencesWithinBound(facts, p, bound)
  {
    var changes, of := DeclarationChanges(p), ConsumersOf(facts, p.file);
    if ReferencesWithinBound(facts, p, bound) {
      forall user | user in SymbolFiles(changes, of) ensures user in bound {
        var anchor := FromSomeAnchor(changes, of, user);
        var change := AnchorOf(changes, anchor);
        assert user in ConsumersOfAnchor(facts, p.file, anchor);
        var f :| f in facts && f.file == p.file && user in f.references && Concerns(change, f.name);
      }
    } else {
      var f, change, user :| f in facts && f.file == p.file && change in changes && Concerns(change, f.name)
                             && user in f.references && user != p.file && user !in bound;
      ReferenceIsConfirmed(p, facts, f, change, user);
    }
  }

  lemma {:induction false} ReferenceIsConfirmed(p: Profile, facts: seq<Fact>, f: Fact, change: Change, user: string)
    requires f in facts && f.file == p.file && change in DeclarationChanges(p) && Concerns(change, f.name)
    requires user in f.references && user != p.file
    ensures user in SymbolFiles(DeclarationChanges(p), ConsumersOf(facts, p.file))
  {
    var changes, of := DeclarationChanges(p), ConsumersOf(facts, p.file);
    var i :| 0 <= i < |changes| && changes[i] == change;
    assert Anchors(changes)[i] == change.anchor;
    assert user in of(change.anchor);
    InSymbolFiles(changes, of, change.anchor);
  }

  /** For any profile with symbol-level evidence: the confirmed consumers stay within the static bound
      exactly when every reference found to a changed declaration comes from the file itself or a
      static consumer. */
  lemma {:induction false} WithinBoundIff(p: Profile, reports: seq<Report>, c: Context)
    requires DossierOf(p, reports, c).evidence == Symbol
    ensures var d, report := DossierOf(p, reports, c), FindReport(reports, c.language(p.file));
      && d.consumersByAnchor.Some? && report.Some?
      && (Everyone(d.consumersByAnchor.value) <= d.staticConsumers
          <==> ReferencesWithinBound(report.value.facts, p, d.staticConsumers))
  {
    SymbolShape(p, reports, c);
    SymbolFilesWithinIff(p, FindReport(reports, c.language(p.file)).value.facts, StaticConsumers(p.file, c));
  }

  /** The consumers of symbol-level evidence are those the report of the language confirms. */
  lemma {:induction false} SymbolShape(p: Profile, reports: seq<Report>, c: Context)
    requires DossierOf(p, reports, c).evidence == Symbol
    ensures var d, report := DossierOf(p, reports, c), FindReport(reports, c.language(p.file));
      && d.consumersByAnchor.Some? && report.Some? && d.staticConsumers == StaticConsumers(p.file, c)
      && Everyone(d.consumersByAnchor.value) == SymbolFiles(DeclarationChanges(p), ConsumersOf(report.value.facts, p.file))
  {
    var report := FindReport(reports, c.language(p.file));
    assert report.Some? && report.value.available;
    JudgedShape(p, c, ReferencesReliable(report.value, c), report.value.reason, ConsumersOf(report.value.facts, p.file));
  }

  lemma {:induction false} JudgedShape(p: Profile, c: Context, reliable: bool, reason: string, of: string -> set<string>)
    requires Judged(p, c, reliable, reason, of).evidence == Symbol
    ensures var d := Judged(p, c, reliable, reason, of);
      && d.consumersByAnchor.Some? && d.staticConsumers == StaticConsumers(p.file, c)
      && Everyone(d.consumersByAnchor.value) == SymbolFiles(DeclarationChanges(p), of)
  {
    EveryoneIsSymbolFiles(Consumers(DeclarationChanges(p), of), DeclarationChanges(p), of);
  }

  lemma {:induction false} SymbolFilesGrow(p: Profile, facts: seq<Fact>, more: seq<Fact>)
    requires forall f :: f in facts ==> f in more
    ensures SymbolFiles(DeclarationChanges(p), ConsumersOf(facts, p.file))
            <= SymbolFiles(DeclarationChanges(p), ConsumersOf(more, p.file))
  {
    var changes := DeclarationChanges(p);
    forall user | user in SymbolFiles(changes, ConsumersOf(facts, p.file))
      ensures user in SymbolFiles(changes, ConsumersOf(more, p.file))
    {
      var anchor := FromSomeAnchor(changes, ConsumersOf(facts, p.file), user);
      assert user in ConsumersOfAnchor(facts, p.file, anchor);
      assert user in ConsumersOf(more, p.file)(anchor);
      InSymbolFiles(changes, ConsumersOf(more, p.file), anchor);
    }
  }

  /** What a report with more facts does to symbol-level evidence, whatever its completeness: nothing
      once a consumer is confirmed, and otherwise it takes it away exactly when all it adds lies
      outside the bound, or it adds nothing and is unreliable. */
  lemma {:induction false} MoreFactsIff(p: Profile, c: Context, report: Report, more: Report)
    requires report.language == more.language == c.language(p.file) && more.available
    requires forall f :: f in report.facts ==> f in more.facts
    requires DossierOf(p, [report], c).evidence == Symbol
    ensures var before, after := Everyone(DossierOf(p, [report], c).consumersByAnchor.value),
                                 SymbolFiles(DeclarationChanges(p), ConsumersOf(more.facts, p.file));
      && before <= after
      && (DossierOf(p, [more], c).evidence == Symbol
          <==> before != {} || !(after !! StaticConsumers(p.file, c)) || (after == {} && ReferencesReliable(more, c)))
  {
    SymbolShape(p, [report], c);
    OneReport(p, report, c);
    OneReport(p, more, c);
    SymbolFilesGrow(p, report.facts, more.facts);
  }

  lemma {:induction false} OneReport(p: Profile, report: Report, c: Context)
    requires report.language == c.language(p.file)
    ensures var files, bound := SymbolFiles(DeclarationChanges(p), ConsumersOf(report.facts, p.file)), StaticConsumers(p.file, c);
      DossierOf(p, [report], c).evidence == Symbol
      <==> bound != {} && report.available && if files == {} then ReferencesReliable(report, c) else !(files !! bound)
  {
    SymbolIff(p, [report], c);
    assert FindReport([report], c.language(p.file)) == Some(report);
  }

  lemma {:induction false} JudgedSymbol(p: Profile, c: Context, reliable: bool, reason: string, of: string -> set<string>, change: Change)
    requires DeclarationChanges(p) == [change] && !(of(change.anchor) !! StaticConsumers(p.file, c))
    ensures Judged(p, c, reliable, reason, of).evidence == Symbol
    ensures Everyone(Judged(p, c, reliable, reason, of).consumersByAnchor.value) == of(change.anchor)
  {
    var changes := DeclarationChanges(p);
    assert changes[1..] == [];
    assert SymbolFiles(changes, of) == of(change.anchor);
    EveryoneIsSymbolFiles(Consumers(changes, of), changes, of);
  }

  /** One declaration with two users, of which the reverse graph knows only one. */
  const EXCEEDING: Fact := Fact("a", "f", ["b", "c"])

  lemma {:induction false} ExceedingUsers()
    ensures ConsumersOf([EXCEEDING], "a")("f") == {"b", "c"}
  {
    assert LeafName("f") == "f" by {
      assert "f"[..0] == "" && LeafName("") == "";
    }
    assert !IsFileLevel("f");
    var users := ConsumersNamed([EXCEEDING], "a", "f");
    assert users == {"b", "c"} by {
      assert EXCEEDING in [EXCEEDING] && "b" in EXCEEDING.references && "c" in EXCEEDING.references;
    }
  }

  lemma {:induction false} ExceedingBound(c: Context)
    requires c.reverseEdges == map["a" := ["b"]] && c.toAbsolute("a") == "a" && c.toRelative("b") == "b"
    ensures StaticConsumers("a", c) == {"b"}
  {
    assert c.reverseEdges["a"] == ["b"] && "b" in ["b"];
  }

  /** Confirmed consumers need not stay within the static bound: one common file is enough. */
  lemma {:induction false} SymbolsCanExceedTheBound() returns (p: Profile, reports: seq<Report>, c: Context)
    ensures var d := DossierOf(p, reports, c);
      d.evidence == Symbol && |Everyone(d.consumersByAnchor.value)| > |d.staticConsumers|
  {
    var change, report := Change("f", "field_add_remove"), Report("ts", true, [EXCEEDING], Some(false), true, "");
    p, reports := Profile("a", [change]), [report];
    c := Context(x => x, x => x, x => "ts", map["a" := ["b"]], x => false);
    FilterAll(p.changes, IsDeclaration);
    ExceedingUsers();
    ExceedingBound(c);
    var of := ConsumersOf([EXCEEDING], "a");
    assert "b" in of("f");
    JudgedSymbol(p, c, true, "", of, change);
    ExceedingDossier(p, report, c);
  }

  lemma {:induction false} ExceedingDossier(p: Profile, report: Report, c: Context)
    requires StaticConsumers(p.file, c) != {} && c.language(p.file) == report.language && report.available
    ensures DossierOf(p, [report], c) == Judged(p, c, ReferencesReliable(report, c), report.reason, ConsumersOf(report.facts, p.file))
    ensures DossierOf(p, [report], c).staticConsumers == StaticConsumers(p.file, c)
  {
    GapIffNotSymbol(p, [report], c);
  }

  function ChangingProfiles(profiles: seq<Profile>): seq<Profile> {
    if profiles == [] then []
    else
      var front, last := profiles[..|profiles| - 1], profiles[|profiles| - 1];
      ChangingProfiles(front) + if DeclarationChanges(last) == [] then [] else [last]
  }

  /** Every profile that changes a declaration gets exactly one dossier, in order. */
  lemma {:induction false} OneDossierEach(profiles: seq<Profile>, reports: seq<Report>, c: Context)
    ensures |DossiersOf(profiles, reports, c)| == |ChangingProfiles(profiles)|
    ensures forall i {:trigger ChangingProfiles(profiles)[i]} {:trigger DossiersOf(profiles, reports, c)[i]} :: 0 <= i < |ChangingProfiles(profiles)| ==>
              DossiersOf(profiles, reports, c)[i] == DossierOf(ChangingProfiles(profiles)[i], reports, c)
  {
    if profiles != [] {
      OneDossierEach(profiles[..|profiles| - 1], reports, c);
    }
  }
}
