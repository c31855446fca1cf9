/** The verification plan for changed files, and the evidence gaps it attaches to its items. */
module ImpactPlan {
  import opened ChangeSurface
  import opened Seqs

  const PUBLIC_KINDS: set<string> := {"interface_add_remove", "class_add_remove", "public_method_sig", "field_add_remove"}
  const DEPENDENCY_KINDS: set<string> := {"dependency_add", "dependency_remove"}

  datatype Item = Item(file: string, publicContracts: seq<string>, dependencyUnits: seq<string>, implementationUnits: seq<string>,
                       evidenceGap: Option<Gap>)

  function Unit(c: Change): string {
    c.anchor + " (" + c.kind + ")"
  }

  function PublicUnits(changes: seq<Change>): seq<string> {
    if changes == [] then []
    else (if changes[0].kind in PUBLIC_KINDS then [Unit(changes[0])] else []) + PublicUnits(changes[1..])
  }

  function DependencyUnits(changes: seq<Change>): seq<string> {
    if changes == [] then []
    else (if changes[0].kind in DEPENDENCY_KINDS then [Unit(changes[0])] else []) + DependencyUnits(changes[1..])
  }

  function ImplementationUnits(changes: seq<Change>): seq<string> {
    if changes == [] then []
    else (if changes[0].kind !in PUBLIC_KINDS + DEPENDENCY_KINDS then [Unit(changes[0])] else []) + ImplementationUnits(changes[1..])
  }

  predicate IsPublic(c: Change) {
    c.kind in PUBLIC_KINDS
  }

  predicate IsDependency(c: Change) {
    c.kind in DEPENDENCY_KINDS
  }

  predicate IsImplementation(c: Change) {
    c.kind !in PUBLIC_KINDS + DEPENDENCY_KINDS
  }

  function Units(changes: seq<Change>): (r: seq<string>)
    ensures |r| == |changes| && forall i :: 0 <= i < |r| ==> r[i] == changes[i].anchor + " (" + changes[i].kind + ")"
  {
    if changes == [] then [] else [Unit(changes[0])] + Units(changes[1..])
  }

  lemma {:induction false} KindsAreApart(c: Change)
    ensures !(IsPublic(c) && IsDependency(c))
  {
    var public, dependency := PUBLIC_KINDS, DEPENDENCY_KINDS;
    forall kind | kind in dependency ensures kind !in public {
      assert kind[0] == 'd';
    }
  }

  /** The three lists are the units of a partition of the changes, each part in order: every change,
      as often as it occurs, is in exactly one of them. */
  lemma {:induction false} UnitsPartition(changes: seq<Change>)
    ensures var public, dependency, implementation :=
              Filter(changes, IsPublic), Filter(changes, IsDependency), Filter(changes, IsImplementation);
      && PublicUnits(changes) == Units(public) && DependencyUnits(changes) == Units(dependency)
      && ImplementationUnits(changes) == Units(implementation)
      && multiset(changes) == multiset(public) + multiset(dependency) + multiset(implementation)
      && multiset(public) !! multiset(dependency) && multiset(public) !! multiset(implementation)
      && multiset(dependency) !! multiset(implementation)
  {
    forall c ensures !(IsPublic(c) && IsDependency(c)) {
      KindsAreApart(c);
    }
    PublicUnitsAre(changes);
    DependencyUnitsAre(changes);
    ImplementationUnitsAre(changes);
    PartsAddUp(changes, IsPublic, IsDependency, IsImplementation);
    PartsAreApart(changes, IsPublic, IsDependency);
    PartsAreApart(changes, IsPublic, IsImplementation);
    PartsAreApart(changes, IsDependency, IsImplementation);
  }

  lemma {:induction false} PublicUnitsAre(changes: seq<Change>)
    ensures PublicUnits(changes) == Units(Filter(changes, IsPublic))
  {
    if changes != [] {
      PublicUnitsAre(changes[1..]);
    }
  }

  lemma {:induction false} DependencyUnitsAre(changes: seq<Change>)
    ensures DependencyUnits(changes) == Units(Filter(changes, IsDependency))
  {
    if changes != [] {
      DependencyUnitsAre(changes[1..]);
    }
  }

  lemma {:induction false} ImplementationUnitsAre(changes: seq<Change>)
    ensures ImplementationUnits(changes) == Units(Filter(changes, IsImplementation))
  {
    if changes != [] {
      ImplementationUnitsAre(changes[1..]);
    }
  }

  lemma {:induction false} PartsAddUp<T(!new)>(s: seq<T>, p: T -> bool, q: T -> bool, r: T -> bool)
    requires forall x :: p(x) || q(x) || r(x)
    requires forall x :: !(p(x) && q(x)) && !(p(x) && r(x)) && !(q(x) && r(x))
    ensures multiset(s) == multiset(Filter(s, p)) + multiset(Filter(s, q)) + multiset(Filter(s, r))
  {
    if s != [] {
      PartsAddUp(s[1..], p, q, r);
      assert s == [s[0]] + s[1..];
    }
  }

  lemma {:induction false} PartsAreApart<T(!new)>(s: seq<T>, p: T -> bool, q: T -> bool)
    requires forall x :: !(p(x) && q(x))
    ensures multiset(Filter(s, p)) !! multiset(Filter(s, q))
  {
    forall x ensures x !in multiset(Filter(s, p)) || x !in multiset(Filter(s, q)) {
      assert x in Filter(s, p) ==> x !in Filter(s, q);
    }
  }

  predicate NeedsItem(p: Profile) {
    PublicUnits(p.changes) != [] || DependencyUnits(p.changes) != []
  }

  /** Gaps by file; a later dossier of the same file replaces an earlier one that also has a gap. */
  function GapByFile(dossiers: seq<Dossier>): map<string, Gap> {
    if dossiers == [] then map[]
    else
      var front, last := GapByFile(dossiers[..|dossiers| - 1]), dossiers[|dossiers| - 1];
      if last.gap.Some? then front[last.file := last.gap.value] else front
  }

  function ItemOf(p: Profile, gaps: map<string, Gap>): Item {
    Item(p.file, PublicUnits(p.changes), DependencyUnits(p.changes), ImplementationUnits(p.changes),
         if p.file in gaps then Some(gaps[p.file]) else None)
  }

  function ItemsOf(profiles: seq<Profile>, gaps: map<string, Gap>): seq<Item> {
    if profiles == [] then [] else (if NeedsItem(profiles[0]) then [ItemOf(profiles[0], gaps)] else []) + ItemsOf(profiles[1..], gaps)
  }

  function Gaps(profiles: seq<Profile>, reports: seq<Report>, c: Context): map<string, Gap> {
    GapByFile(DossiersOf(profiles, reports, c))
  }

  function BuildImpactPlan(profiles: seq<Profile>, reports: seq<Report>, c: Context): seq<Item> {
    ItemsOf(profiles, Gaps(profiles, reports, c))
  }

  // ---------------------------------------------------------------------------------------------
  // Agreement with the dossiers
  // ---------------------------------------------------------------------------------------------

  ghost predicate Lacks(p: Profile, reports: seq<Report>, c: Context) {
    DeclarationChanges(p) != [] && DossierOf(p, reports, c).evidence != Symbol
  }

  /** Some profile of that file changes a declaration and its evidence is not symbol-level. */
  ghost predicate LacksEvidence(profiles: seq<Profile>, reports: seq<Report>, c: Context, file: string) {
    exists p :: p in profiles && p.file == file && Lacks(p, reports, c)
  }

  /** The gap a profile contributes, if it changes a declaration. */
  function GapOf(p: Profile, reports: seq<Report>, c: Context): Option<Gap> {
    if DeclarationChanges(p) == [] then None else DossierOf(p, reports, c).gap
  }

  lemma {:induction false} OneMoreProfile(front: seq<Profile>, last: Profile, reports: seq<Report>, c: Context)
    ensures Gaps(front + [last], reports, c) == WithOneGap(Gaps(front, reports, c), last.file, GapOf(last, reports, c))
  {
    OneMoreDossier(front, last, reports, c);
    if DeclarationChanges(last) == [] {
      assert DossiersOf(front, reports, c) + [] == DossiersOf(front, reports, c);
    } else {
      DossierNamesFile(last, reports, c);
      OneMoreGap(DossiersOf(front, reports, c), DossierOf(last, reports, c));
    }
  }

  function WithOneGap(gaps: map<string, Gap>, file: string, gap: Option<Gap>): map<string, Gap> {
    match gap case None => gaps case Some(g) => gaps[file := g]
  }

  lemma {:induction false} GapIffLacking(p: Profile, reports: seq<Report>, c: Context)
    ensures GapOf(p, reports, c).Some? <==> Lacks(p, reports, c)
  {
    DossierNamesFile(p, reports, c);
  }

  lemma {:induction false} DossierNamesFile(p: Profile, reports: seq<Report>, c: Context)
    ensures var d := DossierOf(p, reports, c);
      d.file == p.file && (d.gap.Some? <==> d.evidence != Symbol)
  {
    GapIffNotSymbol(p, reports, c);
  }

  lemma {:induction false} OneMoreDossier(front: seq<Profile>, last: Profile, reports: seq<Report>, c: Context)
    ensures DossiersOf(front + [last], reports, c)
            == DossiersOf(front, reports, c) + if DeclarationChanges(last) == [] then [] else [DossierOf(last, reports, c)]
  {
    assert (front + [last])[..|front|] == front;
  }

  lemma {:induction false} OneMoreGap(before: seq<Dossier>, d: Dossier)
    ensures GapByFile(before + [d]) == WithOneGap(GapByFile(before), d.file, d.gap)
  {
    assert (before + [d])[..|before|] == before;
  }

  lemma {:induction false} GapIffLacks(profiles: seq<Profile>, reports: seq<Report>, c: Context, file: string)
    ensures file in Gaps(profiles, reports, c) <==> LacksEvidence(profiles, reports, c, file)
  {
    if profiles != [] {
      var front, last := profiles[..|profiles| - 1], profiles[|profiles| - 1];
      GapIffLacks(front, reports, c, file);
      OneMoreProfile(front, last, reports, c);
      GapIffLacking(last, reports, c);
      LacksEvidenceStep(front, last, reports, c, file);
      assert profiles == front + [last];
    }
  }

  lemma {:induction false} LacksEvidenceStep(front: seq<Profile>, last: Profile, reports: seq<Report>, c: Context, file: string)
    ensures LacksEvidence(front + [last], reports, c, file)
            <==> LacksEvidence(front, reports, c, file)
                 || (last.file == file && Lacks(last, reports, c))
  {
    assert forall p :: p in front + [last] <==> p in front || p == last;
  }

  lemma {:induction false} GapIsTheOneOf(profiles: seq<Profile>, reports: seq<Report>, c: Context, i: nat)
    requires FilesDistinct(profiles) && i < |profiles| && DeclarationChanges(profiles[i]) != []
    ensures var gaps := Gaps(profiles, reports, c);
      GapOf(profiles[i], reports, c) == if profiles[i].file in gaps then Some(gaps[profiles[i].file]) else None
  {
    var n := |profiles| - 1;
    var front, last := profiles[..n], profiles[n];
    OneMoreProfile(front, last, reports, c);
    assert profiles == front + [last];
    if i < n {
      FrontDistinct(profiles, n);
      GapIsTheOneOf(front, reports, c, i);
      assert profiles[i].file != last.file;
    } else {
      NoGapYet(front, reports, c, last.file);
    }
  }

  lemma {:induction false} FrontDistinct(profiles: seq<Profile>, n: nat)
    requires FilesDistinct(profiles) && n <= |profiles|
    ensures FilesDistinct(profiles[..n])
  {
  }

  ghost predicate FilesDistinct(profiles: seq<Profile>) {
    forall i, j :: 0 <= i < j < |profiles| ==> profiles[i].file != profiles[j].file
  }

  lemma {:induction false} NoGapYet(profiles: seq<Profile>, reports: seq<Report>, c: Context, file: string)
    requires forall i :: 0 <= i < |profiles| ==> profiles[i].file != file
    ensures file !in Gaps(profiles, reports, c)
  {
    GapIffLacks(profiles, reports, c, file);
  }

  lemma {:induction false} ItemsHaveGaps(profiles: seq<Profile>, gaps: map<string, Gap>, item: Item)
    ensures item in ItemsOf(profiles, gaps) <==> exists p :: p in profiles && NeedsItem(p) && item == ItemOf(p, gaps)
  {
    if profiles != [] {
      ItemsHaveGaps(profiles[1..], gaps, item);
      assert forall p :: p in profiles <==> p == profiles[0] || p in profiles[1..];
    }
  }

  /** For any profiles, an item of the plan carries a gap exactly when some profile of its file lacks
      symbol-level evidence. */
  lemma {:induction false} PlanCarriesGaps(profiles: seq<Profile>, reports: seq<Report>, c: Context, item: Item)
    requires item in BuildImpactPlan(profiles, reports, c)
    ensures item.evidenceGap.Some? <==> LacksEvidence(profiles, reports, c, item.file)
  {
    var gaps := Gaps(profiles, reports, c);
    ItemsHaveGaps(profiles, gaps, item);
    GapIffLacks(profiles, reports, c, item.file);
  }

  /** With one profile a file, the item of a profile carries the very gap of its dossier, and none
      when the profile changes no declaration. */
  lemma {:induction false} PlanAgreesWithDossiers(profiles: seq<Profile>, reports: seq<Report>, c: Context, i: nat)
    requires FilesDistinct(profiles) && i < |profiles| && NeedsItem(profiles[i])
    ensures exists item :: item in BuildImpactPlan(profiles, reports, c) && item.file == profiles[i].file
    ensures forall item :: item in BuildImpactPlan(profiles, reports, c) && item.file == profiles[i].file ==>
              item.evidenceGap == if DeclarationChanges(profiles[i]) == [] then None else DossierOf(profiles[i], reports, c).gap
  {
    var p, gaps := profiles[i], Gaps(profiles, reports, c);
    ItemsHaveGaps(profiles, gaps, ItemOf(p, gaps));
    assert ItemOf(p, gaps) in BuildImpactPlan(profiles, reports, c) && ItemOf(p, gaps).file == p.file;
    if DeclarationChanges(p) == [] {
      GapIffLacks(profiles, reports, c, p.file);
    } else {
      GapIsTheOneOf(profiles, reports, c, i);
    }
    forall item | item in BuildImpactPlan(profiles, reports, c) && item.file == p.file ensures item == ItemOf(p, gaps) {
      ItemsHaveGaps(profiles, gaps, item);
    }
  }

  // ---------------------------------------------------------------------------------------------
  // What the plan is
  // ---------------------------------------------------------------------------------------------

  /** The kinds of changes, by name. */
  lemma {:induction false} KindsIff(c: Change)
    ensures IsPublic(c) <==> c.kind == "interface_add_remove" || c.kind == "class_add_remove" || c.kind == "public_method_sig"
                             || c.kind == "field_add_remove"
    ensures IsDependency(c) <==> c.kind == "dependency_add" || c.kind == "dependency_remove"
    ensures IsImplementation(c) <==> !IsPublic(c) && !IsDependency(c)
  {
  }

  /** A file needs checking when it changes something public or a dependency. */
  ghost predicate ChangesContract(p: Profile) {
    exists c :: c in p.changes && (IsPublic(c) || IsDependency(c))
  }

  lemma {:induction false} NeedsItemIff(p: Profile)
    ensures NeedsItem(p) <==> ChangesContract(p)
  {
    var public, dependency := Filter(p.changes, IsPublic), Filter(p.changes, IsDependency);
    PublicUnitsAre(p.changes);
    DependencyUnitsAre(p.changes);
    if public != [] {
      assert public[0] in public;
    }
    if dependency != [] {
      assert dependency[0] in dependency;
    }
  }

  /** The plan has one item for every profile that changes a contract, in order, with the units of its
      three kinds of changes. */
  lemma {:induction false} ItemsAre(profiles: seq<Profile>, gaps: map<string, Gap>)
    ensures AreItems(ItemsOf(profiles, gaps), Filter(profiles, (p: Profile) => ChangesContract(p)), gaps)
  {
    if profiles != [] {
      var due := Filter(profiles[1..], (p: Profile) => ChangesContract(p));
      ItemsAre(profiles[1..], gaps);
      NeedsItemIff(profiles[0]);
      if NeedsItem(profiles[0]) {
        ItemIs(profiles[0], gaps);
        ItemFirst(ItemOf(profiles[0], gaps), profiles[0], ItemsOf(profiles[1..], gaps), due, gaps);
      } else {
        assert [] + ItemsOf(profiles[1..], gaps) == ItemsOf(profiles[1..], gaps);
      }
    }
  }

  lemma {:induction false} ItemFirst(item: Item, p: Profile, items: seq<Item>, due: seq<Profile>, gaps: map<string, Gap>)
    requires IsItem(item, p, gaps) && AreItems(items, due, gaps)
    ensures AreItems([item] + items, [p] + due, gaps)
  {
  }

  /** One item a profile, in order. */
  ghost predicate AreItems(items: seq<Item>, due: seq<Profile>, gaps: map<string, Gap>) {
    |items| == |due| && forall i :: 0 <= i < |due| ==> IsItem(items[i], due[i], gaps)
  }

  lemma {:induction false} ItemIs(p: Profile, gaps: map<string, Gap>)
    ensures IsItem(ItemOf(p, gaps), p, gaps)
  {
    PublicUnitsAre(p.changes);
    DependencyUnitsAre(p.changes);
    ImplementationUnitsAre(p.changes);
  }

  ghost predicate IsItem(item: Item, p: Profile, gaps: map<string, Gap>) {
    && item.file == p.file && item.publicContracts == Units(Filter(p.changes, IsPublic))
    && item.dependencyUnits == Units(Filter(p.changes, IsDependency))
    && item.implementationUnits == Units(Filter(p.changes, IsImplementation))
    && (item.evidenceGap.Some? <==> p.file in gaps)
    && (p.file in gaps ==> item.evidenceGap == Some(gaps[p.file]))
  }

  /** Of several profiles of one file the last one with a gap is the one whose gap is carried. */
  lemma {:induction false} LastGapWins(profiles: seq<Profile>, reports: seq<Report>, c: Context, file: string) returns (i: nat)
    requires file in Gaps(profiles, reports, c)
    ensures i < |profiles| && profiles[i].file == file && Lacks(profiles[i], reports, c)
    ensures DossierOf(profiles[i], reports, c).gap == Some(Gaps(profiles, reports, c)[file])
    ensures forall j :: i < j < |profiles| && profiles[j].file == file ==> !Lacks(profiles[j], reports, c)
  {
    var n := |profiles| - 1;
    var front, last := profiles[..n], profiles[n];
    assert profiles == front + [last];
    OneMoreProfile(front, last, reports, c);
    GapIffLacking(last, reports, c);
    if last.file == file && Lacks(last, reports, c) {
      i := n;
    } else {
      i := LastGapWins(front, reports, c, file);
      assert forall j :: 0 <= j < n ==> profiles[j] == front[j];
    }
  }
}
