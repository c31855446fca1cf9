/** What is derived from the dossiers: the change surfaces, the gaps, and the unavailable languages. */
module SurfaceProjections {
  import opened ChangeSurface
  import opened Seqs

  datatype Surface = Surface(file: string, language: string, staticBound: nat, confirmed: bool, unconfirmed: seq<string>)

  datatype UnavailableLanguage = UnavailableLanguage(language: string, reason: Reason, files: seq<string>)

  datatype Collection = Collection(available: bool, surfaces: seq<Surface>, languages: seq<UnavailableLanguage>, gaps: seq<Gap>)

  /** The anchors without a consumer, each waiting for confirmation. */
  function Unconfirmed(anchors: seq<string>, consumers: map<string, set<string>>): seq<string> {
    if anchors == [] then []
    else (if At(consumers, anchors[0]) == {} then [anchors[0]] else []) + Unconfirmed(anchors[1..], consumers)
  }

  function SurfaceOf(d: Dossier): Surface
    requires d.consumersByAnchor.Some?
  {
    Surface(d.file, d.language, |d.staticConsumers|, d.evidence == Symbol,
            if d.evidence == Symbol then Unconfirmed(Anchors(d.changes), d.consumersByAnchor.value) else [])
  }

  // ---------------------------------------------------------------------------------------------
  // Languages
  // ---------------------------------------------------------------------------------------------

  predicate Concerns(g: Gap, language: string) {
    g.kind == ProviderUnavailable && g.language == language
  }

  /** The files of a language's unavailable gaps, each once, in order. */
  function FilesOf(gaps: seq<Gap>, language: string): (r: seq<string>)
    ensures Distinct(r)
    ensures forall file :: file in r <==> exists i :: 0 <= i < |gaps| && Concerns(gaps[i], language) && gaps[i].file == file
  {
    if gaps == [] then []
    else
      var front, last := gaps[..|gaps| - 1], gaps[|gaps| - 1];
      assert forall i :: 0 <= i < |front| ==> gaps[i] == front[i];
      var files := FilesOf(front, language);
      if Concerns(last, language) && last.file !in files then files + [last.file] else files
  }

  /** The reason given last. */
  function ReasonOf(gaps: seq<Gap>, language: string): Option<Reason> {
    if gaps == [] then None
    else if Concerns(gaps[|gaps| - 1], language) then Some(gaps[|gaps| - 1].reason)
    else ReasonOf(gaps[..|gaps| - 1], language)
  }

  datatype LanguageEntry = LanguageEntry(reason: Reason, files: seq<string>)

  ghost predicate IsEntry(gaps: seq<Gap>, language: string, byLanguage: map<string, LanguageEntry>) {
    if language in byLanguage
    then ReasonOf(gaps, language) == Some(byLanguage[language].reason) && FilesOf(gaps, language) == byLanguage[language].files != []
    else ReasonOf(gaps, language) == None && FilesOf(gaps, language) == []
  }

  ghost predicate AreEntries(gaps: seq<Gap>, order: seq<string>, byLanguage: map<string, LanguageEntry>) {
    && Distinct(order) && (forall language :: language in order <==> language in byLanguage)
    && forall language {:trigger IsEntry(gaps, language, byLanguage)} :: IsEntry(gaps, language, byLanguage)
  }

  lemma {:induction false} OneMoreGap(gaps: seq<Gap>, g: Gap, language: string)
    ensures FilesOf(gaps + [g], language)
            == FilesOf(gaps, language) + if Concerns(g, language) && g.file !in FilesOf(gaps, language) then [g.file] else []
    ensures ReasonOf(gaps + [g], language) == if Concerns(g, language) then Some(g.reason) else ReasonOf(gaps, language)
  {
    assert (gaps + [g])[..|gaps|] == gaps;
  }

  function Listed(order: seq<string>, byLanguage: map<string, LanguageEntry>): (r: seq<UnavailableLanguage>)
    requires forall language :: language in order ==> language in byLanguage
    ensures |r| == |order|
    ensures forall i :: 0 <= i < |r| ==> r[i] == UnavailableLanguage(order[i], byLanguage[order[i]].reason, byLanguage[order[i]].files)
  {
    if order == [] then []
    else
      var entry := byLanguage[order[0]];
      [UnavailableLanguage(order[0], entry.reason, entry.files)] + Listed(order[1..], byLanguage)
  }

  /** One group a language, holding its affected files and its last reason. */
  ghost predicate AreLanguages(gaps: seq<Gap>, r: seq<UnavailableLanguage>) {
    && (forall i, j :: 0 <= i < j < |r| ==> r[i].language != r[j].language)
    && (forall i :: 0 <= i < |r| ==>
          r[i].files == FilesOf(gaps, r[i].language) && r[i].files != [] && Some(r[i].reason) == ReasonOf(gaps, r[i].language))
    && forall language :: FilesOf(gaps, language) != [] ==> exists i :: 0 <= i < |r| && r[i].language == language
  }

  method UnavailableLanguagesFromGaps(gaps: seq<Gap>) returns (r: seq<UnavailableLanguage>)
    ensures AreLanguages(gaps, r)
  {
    var order: seq<string>, byLanguage: map<string, LanguageEntry> := [], map[];
    for i := 0 to |gaps|
      invariant AreEntries(gaps[..i], order, byLanguage)
    {
      var g := gaps[i];
      assert gaps[..i + 1] == gaps[..i] + [g];
      order, byLanguage := AddGap(gaps[..i], g, order, byLanguage);
    }
    assert gaps[..|gaps|] == gaps;
    r := Listed(order, byLanguage);
    ListedAreLanguages(gaps, order, byLanguage);
  }

  method AddGap(ghost gaps: seq<Gap>, g: Gap, order: seq<string>, byLanguage: map<string, LanguageEntry>)
    returns (order': seq<string>, byLanguage': map<string, LanguageEntry>)
    requires AreEntries(gaps, order, byLanguage)
    ensures AreEntries(gaps + [g], order', byLanguage')
  {
    order', byLanguage' := order, byLanguage;
    assert IsEntry(gaps, g.language, byLanguage);
    if g.kind == ProviderUnavailable {
      if g.language in byLanguage {
        var files := byLanguage[g.language].files;
        byLanguage' := byLanguage[g.language := LanguageEntry(g.reason, if g.file in files then files else files + [g.file])];
      } else {
        byLanguage' := byLanguage[g.language := LanguageEntry(g.reason, [g.file])];
        order' := order + [g.language];
      }
    }
    forall language ensures IsEntry(gaps + [g], language, byLanguage') {
      assert IsEntry(gaps, language, byLanguage);
      OneMoreGap(gaps, g, language);
    }
  }

  lemma {:induction false} ListedAreLanguages(gaps: seq<Gap>, order: seq<string>, byLanguage: map<string, LanguageEntry>)
    requires AreEntries(gaps, order, byLanguage)
    ensures AreLanguages(gaps, Listed(order, byLanguage))
  {
    var r := Listed(order, byLanguage);
    forall i | 0 <= i < |r|
      ensures r[i].files == FilesOf(gaps, r[i].language) && r[i].files != [] && Some(r[i].reason) == ReasonOf(gaps, r[i].language)
    {
      assert order[i] in order && IsEntry(gaps, order[i], byLanguage);
    }
    forall language | FilesOf(gaps, language) != [] ensures exists i :: 0 <= i < |r| && r[i].language == language {
      assert IsEntry(gaps, language, byLanguage) && language in order;
      var i :| 0 <= i < |order| && order[i] == language;
      assert r[i].language == language;
    }
  }

  // ---------------------------------------------------------------------------------------------
  // The collection
  // ---------------------------------------------------------------------------------------------

  function GapsOf(dossiers: seq<Dossier>): seq<Gap> {
    if dossiers == [] then [] else (if dossiers[0].gap.Some? then [dossiers[0].gap.value] else []) + GapsOf(dossiers[1..])
  }

  /** The surfaces of the dossiers that are not provider-unavailable, in order. */
  function SurfacesOf(dossiers: seq<Dossier>): seq<Surface>
    requires forall i :: 0 <= i < |dossiers| ==> GapsAgree(dossiers[i])
  {
    if dossiers == [] then []
    else
      (if dossiers[0].evidence == ProviderUnavailable then []
       else
         assert GapsAgree(dossiers[0]);
         [SurfaceOf(dossiers[0])])
      + SurfacesOf(dossiers[1..])
  }

  lemma {:induction false} AllGapsAgree(profiles: seq<Profile>, reports: seq<Report>, c: Context)
    ensures forall i :: 0 <= i < |DossiersOf(profiles, reports, c)| ==> GapsAgree(DossiersOf(profiles, reports, c)[i])
  {
    if profiles != [] {
      AllGapsAgree(profiles[..|profiles| - 1], reports, c);
      GapIffNotSymbol(profiles[|profiles| - 1], reports, c);
    }
  }

  lemma {:induction false} OneMoreSurface(dossiers: seq<Dossier>, d: Dossier)
    requires forall i :: 0 <= i < |dossiers| ==> GapsAgree(dossiers[i])
    requires GapsAgree(d)
    ensures SurfacesOf(dossiers + [d]) == SurfacesOf(dossiers) + if d.evidence == ProviderUnavailable then [] else [SurfaceOf(d)]
  {
    if dossiers == [] {
      assert [d][1..] == [];
    } else {
      OneMoreSurface(dossiers[1..], d);
      assert (dossiers + [d])[1..] == dossiers[1..] + [d];
    }
  }

  method CollectSurfaces(dossiers: seq<Dossier>) returns (surfaces: seq<Surface>)
    requires forall i :: 0 <= i < |dossiers| ==> GapsAgree(dossiers[i])
    ensures surfaces == SurfacesOf(dossiers)
  {
    surfaces := [];
    for i := 0 to |dossiers|
      invariant surfaces == SurfacesOf(dossiers[..i])
    {
      var d := dossiers[i];
      OneMoreSurface(dossiers[..i], d);
      assert dossiers[..i + 1] == dossiers[..i] + [d];
      if d.evidence == ProviderUnavailable || d.consumersByAnchor.None? {
        continue;
      }
      surfaces := surfaces + [SurfaceOf(d)];
    }
    assert dossiers[..|dossiers|] == dossiers;
  }

  method ComputeChangeSurface(profiles: seq<Profile>, reports: seq<Report>, c: Context) returns (r: Collection)
    ensures forall i :: 0 <= i < |DossiersOf(profiles, reports, c)| ==> GapsAgree(DossiersOf(profiles, reports, c)[i])
    ensures r.surfaces == SurfacesOf(DossiersOf(profiles, reports, c)) && r.gaps == GapsOf(DossiersOf(profiles, reports, c))
    ensures AreLanguages(r.gaps, r.languages)
    ensures r.available <==> r.surfaces != []
  {
    var dossiers := SymbolEvidenceDossiers(profiles, reports, c);
    AllGapsAgree(profiles, reports, c);
    var surfaces := CollectSurfaces(dossiers);
    var gaps := GapsOf(dossiers);
    var languages := UnavailableLanguagesFromGaps(gaps);
    r := Collection(|surfaces| > 0, surfaces, languages, gaps);
  }

  /** The dossier of a file is provider-unavailable under that language. */
  ghost predicate IsUnavailable(d: Dossier, language: string, file: string) {
    d.evidence == ProviderUnavailable && d.language == language && d.file == file
  }

  lemma {:induction false} GapComesFromDossier(dossiers: seq<Dossier>, language: string, file: string)
    requires forall i :: 0 <= i < |dossiers| ==> GapsAgree(dossiers[i])
    ensures (exists d :: d in dossiers && IsUnavailable(d, language, file))
            <==> exists g :: g in GapsOf(dossiers) && Concerns(g, language) && g.file == file
  {
    if dossiers != [] {
      var first, rest := dossiers[0], dossiers[1..];
      GapComesFromDossier(rest, language, file);
      assert GapsAgree(first);
      assert dossiers == [first] + rest;
      assert IsUnavailable(first, language, file) <==> first.gap.Some? && Concerns(first.gap.value, language) && first.gap.value.file == file;
      assert forall g :: g in GapsOf(dossiers) <==> (first.gap.Some? && g == first.gap.value) || g in GapsOf(rest);
      assert forall d :: d in dossiers <==> d == first || d in rest;
    }
  }

  /** The language groups cover exactly the provider-unavailable files: each under its language, once. */
  lemma {:induction false} GroupsCoverUnavailable(dossiers: seq<Dossier>, r: seq<UnavailableLanguage>, language: string, file: string)
    requires forall i :: 0 <= i < |dossiers| ==> GapsAgree(dossiers[i])
    requires AreLanguages(GapsOf(dossiers), r)
    ensures (exists i :: 0 <= i < |r| && r[i].language == language && file in r[i].files)
            <==> exists d :: d in dossiers && IsUnavailable(d, language, file)
    ensures forall i :: 0 <= i < |r| ==> Distinct(r[i].files)
  {
    var gaps := GapsOf(dossiers);
    GapComesFromDossier(dossiers, language, file);
    assert file in FilesOf(gaps, language) <==> exists g :: g in gaps && Concerns(g, language) && g.file == file;
    if file in FilesOf(gaps, language) {
      var i :| 0 <= i < |r| && r[i].language == language;
      assert file in r[i].files;
    }
  }

  // ---------------------------------------------------------------------------------------------
  // What the projections are
  // ---------------------------------------------------------------------------------------------

  /** The surface of a dossier: its bound is the number of static consumers, and with symbol-level
      evidence every changed anchor that nobody is known to use is unconfirmed. */
  ghost predicate Shows(s: Surface, d: Dossier) {
    && s.file == d.file && s.language == d.language && s.staticBound == |d.staticConsumers|
    && (s.confirmed <==> d.evidence == Symbol)
    && s.unconfirmed == match d.evidence
                        case Symbol => Filter(Anchors(d.changes), a => IsUnused(d, a))
                        case _ => []
  }

  predicate IsUnused(d: Dossier, anchor: string) {
    d.consumersByAnchor.Some? ==> anchor !in d.consumersByAnchor.value || d.consumersByAnchor.value[anchor] == {}
  }

  lemma {:induction false} UnconfirmedAre(anchors: seq<string>, d: Dossier)
    requires d.consumersByAnchor.Some?
    ensures Unconfirmed(anchors, d.consumersByAnchor.value) == Filter(anchors, a => IsUnused(d, a))
  {
    if anchors != [] {
      UnconfirmedAre(anchors[1..], d);
    }
  }

  /** One surface for every dossier whose evidence is not unavailable, in order, and nothing else. */
  lemma {:induction false} SurfacesAre(dossiers: seq<Dossier>)
    requires forall i :: 0 <= i < |dossiers| ==> GapsAgree(dossiers[i])
    ensures var kept := Filter(dossiers, (d: Dossier) => d.evidence == Symbol || d.evidence == StaticBoundEmpty);
      |SurfacesOf(dossiers)| == |kept| && forall i :: 0 <= i < |kept| ==> Shows(SurfacesOf(dossiers)[i], kept[i])
  {
    if dossiers != [] {
      SurfacesAre(dossiers[1..]);
      if dossiers[0].evidence != ProviderUnavailable {
        assert GapsAgree(dossiers[0]);
        UnconfirmedAre(Anchors(dossiers[0].changes), dossiers[0]);
      }
    }
  }

  /** One gap for every dossier that has one, in order. */
  lemma {:induction false} GapsAre(dossiers: seq<Dossier>)
    ensures var kept := Filter(dossiers, (d: Dossier) => d.gap.Some?);
      |GapsOf(dossiers)| == |kept| && forall i :: 0 <= i < |kept| ==> kept[i].gap == Some(GapsOf(dossiers)[i])
  {
    if dossiers != [] {
      GapsAre(dossiers[1..]);
    }
  }

  /** `i` is the last gap of that language that is due to the provider. */
  ghost predicate IsLastOf(gaps: seq<Gap>, language: string, i: nat) {
    && i < |gaps| && gaps[i].kind == ProviderUnavailable && gaps[i].language == language
    && forall j :: i < j < |gaps| ==> !(gaps[j].kind == ProviderUnavailable && gaps[j].language == language)
  }

  lemma {:induction false} LastReason(gaps: seq<Gap>, language: string) returns (i: nat)
    requires ReasonOf(gaps, language).Some?
    ensures IsLastOf(gaps, language, i) && ReasonOf(gaps, language) == Some(gaps[i].reason)
  {
    i := |gaps| - 1;
    if !Concerns(gaps[i], language) {
      var front := gaps[..i];
      i := LastReason(front, language);
      assert forall j :: 0 <= j < |front| ==> gaps[j] == front[j];
    }
  }

  lemma {:induction false} FilesAreDedup(gaps: seq<Gap>, language: string)
    ensures FilesOf(gaps, language) == Dedup(GapFiles(Filter(gaps, g => Concerns(g, language))))
  {
    if gaps != [] {
      var front, last := gaps[..|gaps| - 1], gaps[|gaps| - 1];
      var kept := Filter(front, g => Concerns(g, language));
      FilesAreDedup(front, language);
      assert gaps == front + [last];
      FilterAppend(front, last, g => Concerns(g, language));
      if Concerns(last, language) {
        assert GapFiles(kept + [last]) == GapFiles(kept) + [last.file];
        assert (GapFiles(kept) + [last.file])[..|kept|] == GapFiles(kept);
        assert last.file in GapFiles(kept) <==> last.file in FilesOf(front, language);
      } else {
        assert kept + [] == kept;
      }
    }
  }

  function GapFiles(gaps: seq<Gap>): (r: seq<string>)
    ensures |r| == |gaps| && forall i :: 0 <= i < |r| ==> r[i] == gaps[i].file
  {
    seq(|gaps|, i requires 0 <= i < |gaps| => gaps[i].file)
  }

  /** A group of a language: its files in the order of their first gap due to the provider, each once,
      and the reason of its last one. */
  lemma {:induction false} GroupIs(gaps: seq<Gap>, r: seq<UnavailableLanguage>, i: nat) returns (last: nat)
    requires AreLanguages(gaps, r) && i < |r|
    ensures var due := Filter(gaps, (g: Gap) => g.kind == ProviderUnavailable && g.language == r[i].language);
      due != [] && r[i].files == Dedup(GapFiles(due))
    ensures IsLastOf(gaps, r[i].language, last) && r[i].reason == gaps[last].reason
  {
    var language := r[i].language;
    FilesAreDedup(gaps, language);
    SameGaps(gaps, language);
    last := LastReason(gaps, language);
    assert gaps[last] in gaps;
  }

  lemma {:induction false} SameGaps(gaps: seq<Gap>, language: string)
    ensures Filter(gaps, g => Concerns(g, language))
            == Filter(gaps, (g: Gap) => g.kind == ProviderUnavailable && g.language == language)
  {
    if gaps != [] {
      SameGaps(gaps[1..], language);
    }
  }
}
