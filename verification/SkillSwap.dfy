/** Installing a skill tree by swapping directories: copy to staging, move the old tree to a backup,
    promote the staging tree, roll back on failure, clean up at the end.  Every operation may throw,
    and the machine may stop before any of them. */
module SkillSwap {
  import opened Seqs
  import opened SwapDirectory

  // ---------------------------------------------------------------------------------------------
  // The swap
  // ---------------------------------------------------------------------------------------------

  /** The guarded part: copy, set the old tree aside, promote. */
  function Attempt(d: Disk, s: Schedule, version: string, suffix: string): (Disk, bool) {
    var (copied, ok) := Copy(d, s, version, Staging(suffix));
    if !ok then (copied, false)
    else
      var (aside, moved) := if Destination in copied.entries then Rename(copied, s, Destination, Backup(suffix)) else (copied, true);
      if !moved || Staging(suffix) !in aside.entries then (aside, moved) else Rename(aside, s, Staging(suffix), Destination)
  }

  function RollBack(d: Disk, s: Schedule, suffix: string): (Disk, bool) {
    if Backup(suffix) in d.entries && Destination !in d.entries then Rename(d, s, Backup(suffix), Destination) else (d, true)
  }

  /** The second removal is skipped when the first one throws. */
  function CleanUp(d: Disk, s: Schedule, suffix: string): (Disk, bool) {
    var (first, ok) := Remove(d, s, Staging(suffix));
    if !ok then (first, false) else Remove(first, s, Backup(suffix))
  }

  function Swap(d: Disk, s: Schedule, version: string, suffix: string): (Disk, bool) {
    var (attempted, ok) := Attempt(d, s, version, suffix);
    var rolled := if ok then attempted else RollBack(attempted, s, suffix).0;
    var (cleaned, clean) := CleanUp(rolled, s, suffix);
    (cleaned, ok && clean)
  }

  /** Restores the sort-last backup when nothing is installed; failures are swallowed. */
  function Recover(d: Disk, s: Schedule, listing: seq<string>): (r: Disk)
    requires Lists(listing, d.entries)
  {
    if Destination in d.entries then d
    else
      var (looked, ok) := Operate(d, s, d.entries);
      var last := SortLast(listing);
      if !ok || last.None? then looked else Rename(looked, s, Backup(last.value), Destination).0
  }

  /** The plugin's installer. */
  function Install(entries: map<Name, Tree>, s: Schedule, listing: seq<string>, version: string, suffix: string): (Disk, bool)
    requires Lists(listing, entries)
  {
    Swap(Recover(Disk(entries, 0), s, listing), s, version, suffix)
  }

  /** The project-level installer, which never looks for a backup. */
  function InstallWithoutRecovery(entries: map<Name, Tree>, s: Schedule, version: string, suffix: string): (Disk, bool) {
    Swap(Disk(entries, 0), s, version, suffix)
  }

  // ---------------------------------------------------------------------------------------------
  // The installers, on a directory they change step by step
  // ---------------------------------------------------------------------------------------------

  method RecoverBackup(dir: Directory, listing: seq<string>)
    requires Lists(listing, dir.disk.entries)
    modifies dir
    ensures dir.disk == Recover(old(dir.disk), dir.schedule, listing)
  {
    if Destination in dir.disk.entries {
      return;
    }
    if dir.disk.clock < dir.schedule.crashAt {
      dir.disk := dir.disk.(clock := dir.disk.clock + 1);
      if dir.disk.clock - 1 in dir.schedule.faults {
        return;
      }
    }
    var last := SortLast(listing);
    if last.Some? {
      var _ := dir.RenameEntry(Backup(last.value), Destination);
    }
  }

  /** Whether the operation ran to its end without throwing. */
  method ReplaceSkillDirectory(dir: Directory, version: string, suffix: string) returns (ok: bool)
    modifies dir
    ensures (dir.disk, ok) == Swap(old(dir.disk), dir.schedule, version, suffix)
  {
    ok := dir.CopyTree(version, Staging(suffix));
    if ok && Destination in dir.disk.entries {
      ok := dir.RenameEntry(Destination, Backup(suffix));
    }
    if ok && Staging(suffix) in dir.disk.entries {
      ok := dir.RenameEntry(Staging(suffix), Destination);
    }
    if !ok && Backup(suffix) in dir.disk.entries && Destination !in dir.disk.entries {
      var _ := dir.RenameEntry(Backup(suffix), Destination);
    }
    var clean := dir.RemoveEntry(Staging(suffix));
    if clean {
      clean := dir.RemoveEntry(Backup(suffix));
    }
    ok := ok && clean;
  }

  method ReplaceDirectory(dir: Directory, listing: seq<string>, version: string, suffix: string) returns (ok: bool)
    requires Lists(listing, dir.disk.entries)
    modifies dir
    ensures (dir.disk, ok) == Swap(Recover(old(dir.disk), dir.schedule, listing), dir.schedule, version, suffix)
  {
    RecoverBackup(dir, listing);
    ok := ReplaceSkillDirectory(dir, version, suffix);
  }

  // ---------------------------------------------------------------------------------------------
  // What every run keeps
  // ---------------------------------------------------------------------------------------------

  /** Neither the destination nor a backup is ever a half-copied tree. */
  ghost predicate Sound(entries: map<Name, Tree>) {
    && (Destination in entries ==> entries[Destination].Complete?)
    && forall suffix :: Backup(suffix) in entries ==> entries[Backup(suffix)].Complete?
  }

  /** A tree is installed, or a backup can restore one. */
  ghost predicate Available(entries: map<Name, Tree>) {
    Destination in entries || exists suffix :: Backup(suffix) in entries
  }

  /** Both the promotion and the roll back threw, and nothing else did up to the last removal. */
  ghost predicate BothRenamesFail(s: Schedule, start: nat) {
    && start !in s.faults && start + 1 !in s.faults && start + 2 !in s.faults
    && start + 3 in s.faults && start + 4 in s.faults
    && start + 5 !in s.faults && start + 6 !in s.faults
    && s.crashAt > start + 6
  }

  /** Where a swap over an installed tree can be when it ends or stops. */
  ghost predicate SwapState(prior: Tree, after: map<Name, Tree>, version: string, suffix: string) {
    || (Destination in after && after[Destination] in {prior, Complete(version)})
    || (Destination !in after && Backup(suffix) in after && after[Backup(suffix)] == prior)
  }

  /** The promotion threw right after the old tree was set aside. */
  ghost predicate PromotionFails(s: Schedule, start: nat) {
    start !in s.faults && start + 1 !in s.faults && start + 2 !in s.faults && start + 3 in s.faults && s.crashAt > start + 3
  }

  lemma {:induction false} AttemptState(d: Disk, s: Schedule, version: string, suffix: string)
    requires Destination in d.entries && Unused(d.entries, suffix)
    ensures var (a, ok) := Attempt(d, s, version, suffix);
      var prior := d.entries[Destination];
      && OthersKept(d.entries, a.entries, suffix)
      && (|| Untouched(prior, a.entries, suffix)
          || (SetAside(prior, a.entries, suffix) && a.clock == d.clock + 4 && PromotionFails(s, d.clock))
          || (SetAside(prior, a.entries, suffix) && a.clock >= s.crashAt && ok)
          || (Promoted(prior, a.entries, version, suffix) && ok))
      && (PromotionFails(s, d.clock) ==> SetAside(prior, a.entries, suffix) && a.clock == d.clock + 4 && !ok)
  {
    CopyState(d, s, version, suffix);
  }

  lemma {:induction false} FinishKeeps(a: Disk, s: Schedule, version: string, suffix: string, prior: Tree)
    requires Untouched(prior, a.entries, suffix) || Promoted(prior, a.entries, version, suffix)
    ensures RollBack(a, s, suffix).0 == a
    ensures var after := CleanUp(a, s, suffix).0.entries;
      && Destination in after && after[Destination] == a.entries[Destination] && OthersKept(a.entries, after, suffix)
      && (Backup(suffix) in after ==> after[Backup(suffix)] == prior)
  {
  }

  lemma {:induction false} FinishStopped(a: Disk, s: Schedule, suffix: string)
    requires a.clock >= s.crashAt
    ensures CleanUp(a, s, suffix).0 == a && RollBack(a, s, suffix).0 == a
  {
  }

  lemma {:induction false} FinishFailed(a: Disk, s: Schedule, suffix: string, prior: Tree)
    requires SetAside(prior, a.entries, suffix)
    ensures var after := CleanUp(RollBack(a, s, suffix).0, s, suffix).0.entries;
      && OthersKept(a.entries, after, suffix)
      && (Destination in after || Backup(suffix) in after
          <==> !(a.clock in s.faults && a.clock + 1 !in s.faults && a.clock + 2 !in s.faults && s.crashAt > a.clock + 2))
      && (Destination in after ==> after[Destination] == prior)
      && (Backup(suffix) in after ==> after[Backup(suffix)] == prior)
  {
  }

  /** At every crash point and under every choice of throwing operations, a swap over an installed
      tree leaves the old tree, the complete new one, or the prior one in the backup of this run; the
      only exception is a failing promotion whose roll back fails too, and there nothing is left. */
  lemma {:induction false} SwapOverInstalled(d: Disk, s: Schedule, version: string, suffix: string)
    requires Destination in d.entries && Unused(d.entries, suffix)
    ensures var after := Swap(d, s, version, suffix).0.entries;
      && OthersKept(d.entries, after, suffix)
      && (Destination in after || Backup(suffix) in after <==> !BothRenamesFail(s, d.clock))
      && (!BothRenamesFail(s, d.clock) ==> SwapState(d.entries[Destination], after, version, suffix))
      && (Backup(suffix) in after ==> after[Backup(suffix)] == d.entries[Destination])
  {
    var prior := d.entries[Destination];
    var (a, ok) := Attempt(d, s, version, suffix);
    AttemptState(d, s, version, suffix);
    if SetAside(prior, a.entries, suffix) {
      if ok {
        FinishStopped(a, s, suffix);
      } else {
        FinishFailed(a, s, suffix, prior);
      }
    } else {
      FinishKeeps(a, s, version, suffix, prior);
    }
  }

  /** With nothing installed a swap either promotes the new tree or leaves the destination absent. */
  lemma {:induction false} SwapOverNothing(d: Disk, s: Schedule, version: string, suffix: string)
    requires Destination !in d.entries && Unused(d.entries, suffix)
    ensures var after := Swap(d, s, version, suffix).0.entries;
      && OthersKept(d.entries, after, suffix)
      && Backup(suffix) !in after
      && (Destination in after ==> after[Destination] == Complete(version))
      && (Destination in after
          <==> d.clock !in s.faults && d.clock + 1 !in s.faults && d.clock + 2 !in s.faults && s.crashAt > d.clock + 2)
  {
    var (copied, ok) := Copy(d, s, version, Staging(suffix));
    CopyState(d, s, version, suffix);
    var (a, promoted) := Attempt(d, s, version, suffix);
    assert RollBack(a, s, suffix).0 == a;
  }

  // ---------------------------------------------------------------------------------------------
  // Recovery
  // ---------------------------------------------------------------------------------------------

  /** Recovery changes nothing, or moves the sort-last backup to the empty destination. */
  lemma {:induction false} RecoverState(d: Disk, s: Schedule, listing: seq<string>)
    requires Lists(listing, d.entries)
    ensures var after, last := Recover(d, s, listing).entries, SortLast(listing);
      if Destination !in d.entries && last.Some? && d.clock !in s.faults && d.clock + 1 !in s.faults && s.crashAt > d.clock + 1
      then Backup(last.value) in d.entries && after == Moved(d.entries, Backup(last.value), Destination)
      else after == d.entries
  {
    if SortLast(listing).Some? {
      assert Backup(SortLast(listing).value) in d.entries;
    }
  }

  /** With nothing installed, a recovery that is not disturbed restores the backup `x` exactly when
      every other backup's name sorts before it. */
  lemma {:induction false} RestoresIff(d: Disk, s: Schedule, listing: seq<string>, x: string)
    requires Lists(listing, d.entries) && Destination !in d.entries && Backup(x) in d.entries
    requires d.clock !in s.faults && d.clock + 1 !in s.faults && s.crashAt > d.clock + 1
    ensures Recover(d, s, listing).entries == Moved(d.entries, Backup(x), Destination)
            <==> forall other :: Backup(other) in d.entries && other != x ==> LexLess(other, x)
  {
    RecoverState(d, s, listing);
    SortLastIff(listing, x);
    var last := SortLast(listing).value;
    assert Backup(last) !in Moved(d.entries, Backup(last), Destination);
  }

  // ---------------------------------------------------------------------------------------------
  // Whole runs
  // ---------------------------------------------------------------------------------------------

  lemma {:induction false} SwapKeepsSound(d: Disk, s: Schedule, version: string, suffix: string)
    requires Sound(d.entries) && Unused(d.entries, suffix)
    ensures Sound(Swap(d, s, version, suffix).0.entries)
  {
    var after := Swap(d, s, version, suffix).0.entries;
    if Destination in d.entries {
      SwapOverInstalled(d, s, version, suffix);
    } else {
      SwapOverNothing(d, s, version, suffix);
    }
    forall other | Backup(other) in after ensures after[Backup(other)].Complete? {
      if other != suffix {
        assert Backup(other) in d.entries;
      }
    }
  }

  lemma {:induction false} SwapKeepsAvailable(d: Disk, s: Schedule, version: string, suffix: string)
    requires Available(d.entries) && Unused(d.entries, suffix)
    requires !BothRenamesFail(s, d.clock)
    ensures Available(Swap(d, s, version, suffix).0.entries)
  {
    var after := Swap(d, s, version, suffix).0.entries;
    if Destination in d.entries {
      SwapOverInstalled(d, s, version, suffix);
    } else {
      SwapOverNothing(d, s, version, suffix);
      var other :| Backup(other) in d.entries;
      assert Backup(other) in after;
    }
  }

  lemma {:induction false} RecoverKeeps(d: Disk, s: Schedule, listing: seq<string>, suffix: string)
    requires Lists(listing, d.entries) && Unused(d.entries, suffix)
    ensures var after := Recover(d, s, listing).entries;
      && Unused(after, suffix) && (Sound(d.entries) ==> Sound(after)) && (Available(d.entries) ==> Available(after))
  {
    RecoverState(d, s, listing);
  }

  /** One run of the installer, with whatever goes wrong in it. */
  datatype Run = Run(schedule: Schedule, listing: seq<string>, version: string, suffix: string)

  /** The run sees the directory as it is and works under fresh names. */
  ghost predicate Fits(entries: map<Name, Tree>, run: Run) {
    Lists(run.listing, entries) && Unused(entries, run.suffix)
  }

  function AfterRun(entries: map<Name, Tree>, run: Run): map<Name, Tree>
    requires Fits(entries, run)
  {
    Install(entries, run.schedule, run.listing, run.version, run.suffix).0.entries
  }

  /** The one way to lose the installed tree. */
  ghost predicate Loses(entries: map<Name, Tree>, run: Run)
    requires Fits(entries, run)
  {
    BothRenamesFail(run.schedule, Recover(Disk(entries, 0), run.schedule, run.listing).clock)
  }

  lemma {:induction false} RunKeeps(entries: map<Name, Tree>, run: Run)
    requires Fits(entries, run) && Sound(entries)
    ensures Sound(AfterRun(entries, run))
    ensures Available(entries) && !Loses(entries, run) ==> Available(AfterRun(entries, run))
  {
    var d := Disk(entries, 0);
    var recovered := Recover(d, run.schedule, run.listing);
    RecoverKeeps(d, run.schedule, run.listing, run.suffix);
    SwapKeepsSound(recovered, run.schedule, run.version, run.suffix);
    if Available(entries) && !Loses(entries, run) {
      SwapKeepsAvailable(recovered, run.schedule, run.version, run.suffix);
    }
  }

  ghost predicate RunsFit(entries: map<Name, Tree>, runs: seq<Run>)
    decreases |runs|
  {
    runs == [] || (Fits(entries, runs[0]) && !Loses(entries, runs[0]) && RunsFit(AfterRun(entries, runs[0]), runs[1..]))
  }

  function AfterRuns(entries: map<Name, Tree>, runs: seq<Run>): map<Name, Tree>
    requires RunsFit(entries, runs)
    decreases |runs|
  {
    if runs == [] then entries else AfterRuns(AfterRun(entries, runs[0]), runs[1..])
  }

  /** Over any number of interrupted and failing runs, no half-copied tree is ever installed or kept
      as a backup, and a tree that was there once stays installed or restorable. */
  lemma {:induction false} RunsKeep(entries: map<Name, Tree>, runs: seq<Run>)
    requires Sound(entries) && RunsFit(entries, runs)
    ensures Sound(AfterRuns(entries, runs)) && (Available(entries) ==> Available(AfterRuns(entries, runs)))
    decreases |runs|
  {
    if runs != [] {
      RunKeeps(entries, runs[0]);
      RunsKeep(AfterRun(entries, runs[0]), runs[1..]);
    }
  }

  // ---------------------------------------------------------------------------------------------
  // Which backup comes back
  // ---------------------------------------------------------------------------------------------

  lemma {:induction false} RunAddsOwnBackup(entries: map<Name, Tree>, run: Run, x: string)
    requires Fits(entries, run)
    ensures Backup(x) in AfterRun(entries, run) ==> x == run.suffix || Backup(x) in entries
  {
    var d := Disk(entries, 0);
    RecoverKeeps(d, run.schedule, run.listing, run.suffix);
    RecoverState(d, run.schedule, run.listing);
    var recovered := Recover(d, run.schedule, run.listing);
    if Destination in recovered.entries {
      SwapOverInstalled(recovered, run.schedule, run.version, run.suffix);
    } else {
      SwapOverNothing(recovered, run.schedule, run.version, run.suffix);
    }
  }

  /** Every backup on disk was left by one of the runs. */
  lemma {:induction false} BackupsAreOfRuns(entries: map<Name, Tree>, runs: seq<Run>, x: string)
    requires RunsFit(entries, runs) && Backup(x) in AfterRuns(entries, runs)
    ensures Backup(x) in entries || exists i :: 0 <= i < |runs| && runs[i].suffix == x
    decreases |runs|
  {
    if runs != [] {
      var next := AfterRun(entries, runs[0]);
      BackupsAreOfRuns(next, runs[1..], x);
      if Backup(x) in next {
        RunAddsOwnBackup(entries, runs[0], x);
      } else {
        var i :| 0 <= i < |runs| - 1 && runs[1..][i].suffix == x;
        assert runs[i + 1].suffix == x;
      }
    }
  }

  /** `x` is the backup on disk that was made last. */
  ghost predicate Newest(entries: map<Name, Tree>, runs: seq<Run>, x: string) {
    && Backup(x) in entries
    && exists i :: 0 <= i < |runs| && runs[i].suffix == x
                   && forall j :: i < j < |runs| && Backup(runs[j].suffix) in entries ==> runs[j].suffix == x
  }

  /** Over any number of interrupted and failing runs that end with nothing installed, the next
      undisturbed recovery restores a complete tree, and the newest one exactly when the names of all
      older backups still there sort before its name. */
  lemma {:induction false} RestoresNewestIff(before: map<Name, Tree>, runs: seq<Run>, x: string, s: Schedule, listing: seq<string>)
    requires Sound(before) && NoBackups(before) && RunsFit(before, runs)
    requires var entries := AfterRuns(before, runs);
      Destination !in entries && Lists(listing, entries) && Newest(entries, runs, x)
    requires 0 !in s.faults && 1 !in s.faults && s.crashAt > 1
    ensures var entries := AfterRuns(before, runs);
      var after := Recover(Disk(entries, 0), s, listing).entries;
      && Destination in after && after[Destination].Complete?
      && (after == Moved(entries, Backup(x), Destination)
          <==> forall j :: 0 <= j < |runs| && Backup(runs[j].suffix) in entries && runs[j].suffix != x ==> LexLess(runs[j].suffix, x))
  {
    var entries := AfterRuns(before, runs);
    assert Sound(entries) by {
      RunsKeep(before, runs);
    }
    RestoresSomething(entries, s, listing, x);
    RestoresIff(Disk(entries, 0), s, listing, x);
    forall other | Backup(other) in entries ensures exists j :: 0 <= j < |runs| && runs[j].suffix == other {
      BackupsAreOfRuns(before, runs, other);
    }
  }

  lemma {:induction false} RestoresSomething(entries: map<Name, Tree>, s: Schedule, listing: seq<string>, x: string)
    requires Sound(entries) && Destination !in entries && Lists(listing, entries) && Backup(x) in entries
    requires 0 !in s.faults && 1 !in s.faults && s.crashAt > 1
    ensures var after := Recover(Disk(entries, 0), s, listing).entries; Destination in after && after[Destination].Complete?
  {
    assert x in listing;
    RecoverState(Disk(entries, 0), s, listing);
  }

  /** A run over an installed tree that stops right after setting it aside. */
  lemma {:induction false} StopAfterSetAside(entries: map<Name, Tree>, run: Run)
    requires Fits(entries, run) && Destination in entries && run.schedule == Schedule({}, 3)
    ensures AfterRun(entries, run)
            == (entries - {Destination})[Staging(run.suffix) := Complete(run.version)][Backup(run.suffix) := entries[Destination]]
    ensures !Loses(entries, run)
  {
  }

  /** A run over a single backup whose recovery throws, and which then goes through. */
  lemma {:induction false} RecoveryThrows(entries: map<Name, Tree>, run: Run)
    requires Fits(entries, run) && Destination !in entries && run.listing != [] && run.schedule == Schedule({1}, 7)
    ensures AfterRun(entries, run) == entries[Destination := Complete(run.version)]
    ensures !Loses(entries, run)
  {
    var d := Disk(entries, 0);
    RecoverState(d, run.schedule, run.listing);
    var recovered := Recover(d, run.schedule, run.listing);
    assert recovered == Disk(entries, 2);
    SwapsIn(recovered, run);
  }

  lemma {:induction false} SwapsIn(d: Disk, run: Run)
    requires Destination !in d.entries && Unused(d.entries, run.suffix) && run.schedule == Schedule({1}, 7) && d.clock == 2
    ensures Swap(d, run.schedule, run.version, run.suffix).0.entries == d.entries[Destination := Complete(run.version)]
  {
    var (a, ok) := Attempt(d, run.schedule, run.version, run.suffix);
    assert ok && a.clock == 5;
    assert a.entries == d.entries[Destination := Complete(run.version)];
  }

  lemma {:induction false} ThreeRuns(entries: map<Name, Tree>, a: Run, b: Run, c: Run)
    requires Fits(entries, a) && !Loses(entries, a)
    requires var e1 := AfterRun(entries, a); Fits(e1, b) && !Loses(e1, b)
    requires var e2 := AfterRun(AfterRun(entries, a), b); Fits(e2, c) && !Loses(e2, c)
    ensures RunsFit(entries, [a, b, c])
    ensures AfterRuns(entries, [a, b, c]) == AfterRun(AfterRun(AfterRun(entries, a), b), c)
  {
    var e1, runs := AfterRun(entries, a), [a, b, c];
    var e2 := AfterRun(e1, b);
    var e3 := AfterRun(e2, c);
    assert RunsFit(e3, []) && AfterRuns(e3, []) == e3;
    assert [c][1..] == [] && [b, c][1..] == [c] && runs[1..] == [b, c];
    assert RunsFit(e2, [c]) && AfterRuns(e2, [c]) == e3;
    assert RunsFit(e1, [b, c]) && AfterRuns(e1, [b, c]) == e3;
  }

  /** What a stop, a throwing recovery and another stop leave. */
  function TwoBackups(prior: Tree, first: Run, second: Run, third: Run): map<Name, Tree> {
    map[Staging(first.suffix) := Complete(first.version), Backup(first.suffix) := prior,
        Staging(third.suffix) := Complete(third.version), Backup(third.suffix) := Complete(second.version)]
  }

  /** The three runs have their own names, and fail as described. */
  predicate StopThrowStop(first: Run, second: Run, third: Run) {
    && first.suffix != second.suffix && first.suffix != third.suffix && second.suffix != third.suffix
    && first.schedule == Schedule({}, 3) && second.schedule == Schedule({1}, 7) && third.schedule == Schedule({}, 3)
    && first.listing == [] && second.listing == [first.suffix] && third.listing == [first.suffix]
  }

  lemma {:induction false} TwoBackupsAreReachable(prior: Tree, first: Run, second: Run, third: Run)
    requires StopThrowStop(first, second, third)
    ensures var installed := map[Destination := prior];
      && RunsFit(installed, [first, second, third])
      && AfterRuns(installed, [first, second, third]) == TwoBackups(prior, first, second, third)
  {
    var e0 := map[Destination := prior];
    var e1 := FirstStops(prior, first);
    OneBackupFits(e1, prior, first, second);
    RecoveryThrows(e1, second);
    var e2 := AfterRun(e1, second);
    OneBackupFits(e2, prior, first, third);
    StopAfterSetAside(e2, third);
    ThreeRuns(e0, first, second, third);
    assert AfterRun(e2, third) == TwoBackups(prior, first, second, third);
  }

  lemma {:induction false} FirstStops(prior: Tree, first: Run) returns (e1: map<Name, Tree>)
    requires first.schedule == Schedule({}, 3) && first.listing == []
    ensures var e0 := map[Destination := prior]; Fits(e0, first) && !Loses(e0, first) && e1 == AfterRun(e0, first)
    ensures e1 == map[Staging(first.suffix) := Complete(first.version), Backup(first.suffix) := prior]
  {
    var e0 := map[Destination := prior];
    assert Fits(e0, first);
    StopAfterSetAside(e0, first);
    e1 := AfterRun(e0, first);
  }

  lemma {:induction false} OneBackupFits(entries: map<Name, Tree>, prior: Tree, first: Run, run: Run)
    requires run.listing == [first.suffix] && run.suffix != first.suffix
    requires entries - {Destination} == map[Staging(first.suffix) := Complete(first.version), Backup(first.suffix) := prior]
    ensures Fits(entries, run)
  {
    var others := entries - {Destination};
    assert forall name :: name != Destination ==> (name in entries <==> name in others);
    assert first.suffix in run.listing;
  }

  /** Two backups are reachable, and then the names decide: after a stop, a recovery that throws and
      another stop, the next recovery restores the newer tree exactly when the first run's name sorts
      before the third's, and the older one otherwise. */
  lemma {:induction false} NamesDecide(prior: Tree, first: Run, second: Run, third: Run, s: Schedule, listing: seq<string>)
    requires StopThrowStop(first, second, third) && prior != Complete(second.version)
    requires forall name :: name in listing <==> name in {first.suffix, third.suffix}
    requires 0 !in s.faults && 1 !in s.faults && s.crashAt > 1
    ensures var installed := map[Destination := prior];
      && RunsFit(installed, [first, second, third])
      && var entries := AfterRuns(installed, [first, second, third]);
      && Destination !in entries && Lists(listing, entries) && Newest(entries, [first, second, third], third.suffix)
      && var after := Recover(Disk(entries, 0), s, listing).entries;
      && Destination in after
      && (after[Destination] == Complete(second.version) <==> LexLess(first.suffix, third.suffix))
      && (after[Destination] == prior <==> LexLess(third.suffix, first.suffix))
  {
    TwoBackupsAreReachable(prior, first, second, third);
    var runs, entries := [first, second, third], TwoBackups(prior, first, second, third);
    assert Newest(entries, runs, third.suffix) by {
      assert runs[2].suffix == third.suffix;
    }
    LastOfTwo(listing, first.suffix, third.suffix);
    RecoverState(Disk(entries, 0), s, listing);
  }

  /** Names start with the process number and sort as text, so the tree of the earlier run can win. */
  lemma {:induction false} RecoveryCanPickTheOlder(prior: Tree, s: Schedule)
    requires prior.Complete? && prior != Complete("2") && s.faults == {} && s.crashAt > 1
    ensures var runs := [Run(Schedule({}, 3), [], "1", "9-1000"), Run(Schedule({1}, 7), ["9-1000"], "2", "9-1500"),
                         Run(Schedule({}, 3), ["9-1000"], "3", "10-2000")];
      var installed := map[Destination := prior];
      && RunsFit(installed, runs)
      && var entries := AfterRuns(installed, runs);
      && Newest(entries, runs, "10-2000") && Lists(["10-2000", "9-1000"], entries)
      && var after := Recover(Disk(entries, 0), s, ["10-2000", "9-1000"]).entries;
      Destination in after && after[Destination] == prior
  {
    var first := Run(Schedule({}, 3), [], "1", "9-1000");
    var second := Run(Schedule({1}, 7), ["9-1000"], "2", "9-1500");
    var third := Run(Schedule({}, 3), ["9-1000"], "3", "10-2000");
    assert "9-1000"[0] == '9' && "9-1500"[0] == '9' && "9-1500"[2] == '1' && "9-1500"[3] == '5' && "9-1000"[3] == '0';
    assert LexLess("10-2000", "9-1000");
    NamesDecide(prior, first, second, third, s, ["10-2000", "9-1000"]);
  }

  ghost predicate Smooth(s: Schedule) {
    s.faults == {} && s.crashAt > 8
  }

  /** An undisturbed run installs its version from any directory and leaves nothing of its own behind. */
  lemma {:induction false} SmoothRunInstalls(entries: map<Name, Tree>, run: Run)
    requires Fits(entries, run) && Smooth(run.schedule)
    ensures Install(entries, run.schedule, run.listing, run.version, run.suffix).1
    ensures var after := AfterRun(entries, run);
      Destination in after && after[Destination] == Complete(run.version) && Unused(after, run.suffix)
  {
    var d, s := Disk(entries, 0), run.schedule;
    RecoverKeeps(d, s, run.listing, run.suffix);
    SmoothSwap(Recover(d, s, run.listing), s, run.version, run.suffix);
  }

  lemma {:induction false} SmoothSwap(d: Disk, s: Schedule, version: string, suffix: string)
    requires Unused(d.entries, suffix) && s.faults == {} && s.crashAt > d.clock + 5
    ensures Swap(d, s, version, suffix).1
    ensures var after := Swap(d, s, version, suffix).0.entries;
      Destination in after && after[Destination] == Complete(version) && Unused(after, suffix)
  {
    var (copied, ok) := Copy(d, s, version, Staging(suffix));
    CopyState(d, s, version, suffix);
  }

  /** An unstopped swap reports success exactly when none of its operations throws: two to copy, one to
      set an installed tree aside, one to promote, two to clean up. */
  lemma {:induction false} SuccessIff(d: Disk, s: Schedule, version: string, suffix: string)
    requires Unused(d.entries, suffix) && s.crashAt > d.clock + 6
    ensures var operations := if Destination in d.entries then 6 else 5;
      Swap(d, s, version, suffix).1 <==> forall t :: d.clock <= t < d.clock + operations ==> t !in s.faults
  {
    CopyState(d, s, version, suffix);
    var (copied, ok) := Copy(d, s, version, Staging(suffix));
    var (a, promoted) := Attempt(d, s, version, suffix);
    if promoted {
      assert CleanUp(a, s, suffix).1 <==> a.clock !in s.faults && a.clock + 1 !in s.faults;
    }
  }

  /** With at most one throwing operation and no crash, a swap over an installed tree ends on the
      old tree or the new one; when it reports success, on the new one. */
  lemma {:induction false} OneFaultEndsOldOrNew(d: Disk, s: Schedule, version: string, suffix: string)
    requires Destination in d.entries && Unused(d.entries, suffix)
    requires s.crashAt > d.clock + 6 && forall i, j :: i in s.faults && j in s.faults ==> i == j
    ensures var (after, ok) := Swap(d, s, version, suffix);
      && Destination in after.entries
      && after.entries[Destination] in {d.entries[Destination], Complete(version)}
      && (ok ==> after.entries[Destination] == Complete(version))
  {
    var (a, ok) := Attempt(d, s, version, suffix);
    AttemptState(d, s, version, suffix);
    if SetAside(d.entries[Destination], a.entries, suffix) {
      var rolled := RollBack(a, s, suffix).0;
      assert Untouched(d.entries[Destination], rolled.entries, suffix);
      FinishKeeps(rolled, s, version, suffix, d.entries[Destination]);
    } else {
      FinishKeeps(a, s, version, suffix, d.entries[Destination]);
    }
  }

  /** When the copy throws after an earlier crash left only a backup, the plugin's installer has
      restored that backup, and the project-level one leaves the destination absent. */
  lemma {:induction false} OnlyOneRecovers(entries: map<Name, Tree>, listing: seq<string>, version: string, suffix: string, crashAt: nat)
    requires Destination !in entries && Lists(listing, entries) && listing != [] && Unused(entries, suffix) && crashAt > 2
    ensures Destination !in InstallWithoutRecovery(entries, Schedule({0}, crashAt), version, suffix).0.entries
    ensures var after := Install(entries, Schedule({2}, crashAt), listing, version, suffix).0.entries;
      var last := Backup(SortLast(listing).value);
      last in entries && Destination in after && after[Destination] == entries[last]
  {
    var s := Schedule({2}, crashAt);
    SwapOverNothing(Disk(entries, 0), Schedule({0}, crashAt), version, suffix);
    RecoverState(Disk(entries, 0), s, listing);
    RecoverKeeps(Disk(entries, 0), s, listing, suffix);
    var recovered := Recover(Disk(entries, 0), s, listing);
    AttemptState(recovered, s, version, suffix);
    var (a, ok) := Attempt(recovered, s, version, suffix);
    assert !Copy(recovered, s, version, Staging(suffix)).1;
    assert Untouched(recovered.entries[Destination], a.entries, suffix);
    FinishKeeps(a, s, version, suffix, recovered.entries[Destination]);
  }
}
