/** Publishing a complete baseline generation: recover a left-over backup, write a staging copy, set
    the active generation aside, promote the copy, remove the backup.  The entry in use is the active
    generation; a complete tree is a generation that reads as valid. */
module BaselineGeneration {
  import opened Seqs
  import opened SwapDirectory

  /** Names in falling sort order. */
  ghost predicate Falling(names: seq<string>) {
    forall i, j :: 0 <= i < j < |names| ==> LexLess(names[j], names[i])
  }

  /** The generation readers see: the active one, otherwise the backup whose name sorts last. */
  function Readable(entries: map<Name, Tree>, names: seq<string>): Option<Tree>
    requires Lists(names, entries)
  {
    if Destination in entries then Some(entries[Destination])
    else if names == [] then None
    else
      assert names[0] in names;
      Some(entries[Backup(names[0])])
  }

  /** Promotes the first backup in the list that is valid and whose renaming does not throw. */
  function Recover(d: Disk, s: Schedule, names: seq<string>): (r: Disk)
    requires forall n :: n in names ==> Backup(n) in d.entries
    decreases |names|
  {
    if Destination in d.entries || names == [] then d
    else if d.entries[Backup(names[0])].Partial? then Recover(d, s, names[1..])
    else
      var (moved, ok) := Rename(d, s, Backup(names[0]), Destination);
      if ok then moved else Recover(moved, s, names[1..])
  }

  function DropStaging(d: Disk, s: Schedule, token: string): Disk {
    if Staging(token) in d.entries then Remove(d, s, Staging(token)).0 else d
  }

  /** Set aside, promote, roll back a failed promotion, remove the backup of this publication. */
  function Replace(d: Disk, s: Schedule, token: string): (Disk, bool) {
    var (aside, moved) := if Destination in d.entries then Rename(d, s, Destination, Backup(token)) else (d, true);
    if !moved || Staging(token) !in aside.entries then (aside, moved)
    else
      var (promoted, done) := Rename(aside, s, Staging(token), Destination);
      if done then (if Backup(token) in promoted.entries then Remove(promoted, s, Backup(token)) else (promoted, true))
      else if Destination !in promoted.entries && Backup(token) in promoted.entries then
        (Rename(promoted, s, Backup(token), Destination).0, false)
      else (promoted, false)
  }

  /** A failure at any point removes the staging copy. */
  function Stage(d: Disk, s: Schedule, version: string, token: string): (Disk, bool) {
    var (copied, ok) := Copy(d, s, version, Staging(token));
    var (replaced, done) := if ok then Replace(copied, s, token) else (copied, false);
    (if done then replaced else DropStaging(replaced, s, token), done)
  }

  /** The snapshot is what readers see already. */
  predicate Matches(entries: map<Name, Tree>, names: seq<string>, version: string)
    requires Destination !in entries ==> forall n :: n in names ==> Backup(n) in entries
  {
    if Destination in entries then entries[Destination] == Complete(version)
    else names != [] && entries[Backup(names[0])] == Complete(version)
  }

  function Publish(d: Disk, s: Schedule, names: seq<string>, version: string, token: string): (Disk, bool)
    requires Lists(names, d.entries)
  {
    RecoverKeepsNames(d, s, names);
    var r := Recover(d, s, names);
    if Matches(r.entries, names, version) then (r, true) else Stage(r, s, version, token)
  }

  lemma {:induction false} RecoverKeepsNames(d: Disk, s: Schedule, names: seq<string>)
    requires forall n :: n in names ==> Backup(n) in d.entries
    ensures Destination !in Recover(d, s, names).entries ==> Recover(d, s, names).entries == d.entries
    decreases |names|
  {
    if Destination !in d.entries && names != [] {
      var (moved, ok) := Rename(d, s, Backup(names[0]), Destination);
      if d.entries[Backup(names[0])].Partial? {
        RecoverKeepsNames(d, s, names[1..]);
      } else if !ok {
        RecoverKeepsNames(moved, s, names[1..]);
      }
    }
  }

  // ---------------------------------------------------------------------------------------------
  // The publication, on a directory it changes step by step
  // ---------------------------------------------------------------------------------------------

  method RecoverBaseline(dir: Directory, names: seq<string>)
    requires Lists(names, dir.disk.entries)
    modifies dir
    ensures dir.disk == Recover(old(dir.disk), dir.schedule, names)
  {
    if Destination in dir.disk.entries {
      return;
    }
    for i := 0 to |names|
      invariant Destination !in dir.disk.entries && dir.disk.entries == old(dir.disk).entries
      invariant Recover(old(dir.disk), dir.schedule, names) == Recover(dir.disk, dir.schedule, names[i..])
    {
      assert names[i] in names && names[i..][0] == names[i] && names[i..][1..] == names[i + 1..];
      if dir.disk.entries[Backup(names[i])].Complete? {
        var ok := dir.RenameEntry(Backup(names[i]), Destination);
        if ok {
          return;
        }
      }
    }
  }

  method PublishGeneration(dir: Directory, token: string) returns (done: bool)
    modifies dir
    ensures (dir.disk, done) == Replace(old(dir.disk), dir.schedule, token)
  {
    done := true;
    if Destination in dir.disk.entries {
      done := dir.RenameEntry(Destination, Backup(token));
      if !done {
        return;
      }
    }
    if Staging(token) !in dir.disk.entries {
      return;
    }
    done := dir.RenameEntry(Staging(token), Destination);
    if !done {
      if Destination !in dir.disk.entries && Backup(token) in dir.disk.entries {
        var _ := dir.RenameEntry(Backup(token), Destination);
      }
    } else if Backup(token) in dir.disk.entries {
      done := dir.RemoveEntry(Backup(token));
    }
  }

  method PublishBaselineSnapshot(dir: Directory, names: seq<string>, version: string, token: string) returns (done: bool)
    requires Lists(names, dir.disk.entries)
    modifies dir
    ensures (dir.disk, done) == Publish(old(dir.disk), dir.schedule, names, version, token)
  {
    RecoverKeepsNames(dir.disk, dir.schedule, names);
    RecoverBaseline(dir, names);
    if Matches(dir.disk.entries, names, version) {
      return true;
    }
    done := dir.CopyTree(version, Staging(token));
    if done {
      done := PublishGeneration(dir, token);
    }
    if !done && Staging(token) in dir.disk.entries {
      var _ := dir.RemoveEntry(Staging(token));
    }
  }

  // ---------------------------------------------------------------------------------------------
  // What readers see
  // ---------------------------------------------------------------------------------------------

  lemma {:induction false} ReplaceState(d: Disk, s: Schedule, token: string, prior: Tree, version: string)
    requires Untouched(prior, d.entries, token)
    requires Staging(token) in d.entries ==> d.clock >= s.crashAt || d.entries[Staging(token)] == Complete(version)
    ensures var (after, done) := Replace(d, s, token);
      && OthersKept(d.entries, after.entries, token)
      && (|| (Destination in after.entries && after.entries[Destination] in {prior, Complete(version)})
          || SetAside(prior, after.entries, token))
      && (Backup(token) in after.entries ==> after.entries[Backup(token)] == prior)
  {
  }

  ghost predicate SetAside(prior: Tree, entries: map<Name, Tree>, token: string) {
    Destination !in entries && Backup(token) in entries && entries[Backup(token)] == prior
  }

  /** Publishing over an active generation, at every stop and under all throws: the old or the new
      generation is active, or the old one is in this publication's backup.  Nothing else moves. */
  lemma {:induction false} PublishOverActive(d: Disk, s: Schedule, names: seq<string>, version: string, token: string)
    requires Destination in d.entries && Lists(names, d.entries) && Unused(d.entries, token)
    ensures var after := Publish(d, s, names, version, token).0.entries;
      && OthersKept(d.entries, after, token)
      && (|| (Destination in after && after[Destination] in {d.entries[Destination], Complete(version)})
          || SetAside(d.entries[Destination], after, token))
      && (Backup(token) in after ==> after[Backup(token)] == d.entries[Destination])
  {
    CopyState(d, s, version, token);
    var (copied, ok) := Copy(d, s, version, Staging(token));
    if ok {
      ReplaceState(copied, s, token, d.entries[Destination], version);
    }
  }

  /** After such a stop or throw readers see the old or the new generation, provided no older backup
      sorts after this publication's; with the old one set aside they pick it exactly then. */
  lemma {:induction false} ReadersSeeOldOrNewIff(d: Disk, s: Schedule, names: seq<string>, version: string, token: string,
                                                 names': seq<string>)
    requires Destination in d.entries && Lists(names, d.entries) && Unused(d.entries, token)
    requires Lists(names', Publish(d, s, names, version, token).0.entries) && Falling(names')
    ensures var after := Publish(d, s, names, version, token).0.entries;
      if Destination in after then Readable(after, names').value in {d.entries[Destination], Complete(version)}
      else
        && names' != [] && (names'[0] == token <==> forall n :: n in names ==> LexLess(n, token))
        && (names'[0] == token ==> Readable(after, names') == Some(d.entries[Destination]))
        && (names'[0] != token ==> names'[0] in names && Backup(names'[0]) in d.entries
                                   && Readable(after, names') == Some(d.entries[Backup(names'[0])]))
  {
    PublishOverActive(d, s, names, version, token);
    var after := Publish(d, s, names, version, token).0.entries;
    if Destination !in after {
      assert token in names' && token !in names;
      forall n ensures n in names' <==> n == token || n in names {
        assert n != token ==> (Backup(n) in after <==> Backup(n) in d.entries);
      }
      GreatestFirst(names', token);
    }
  }

  lemma {:induction false} GreatestFirst(names: seq<string>, token: string)
    requires Falling(names) && token in names
    ensures names[0] == token <==> forall n :: n in names && n != token ==> LexLess(n, token)
  {
    if names[0] == token {
      forall n | n in names && n != token ensures LexLess(n, token) {
        var j :| 0 <= j < |names| && names[j] == n;
      }
    } else {
      var i :| 0 <= i < |names| && names[i] == token;
      assert names[0] in names && LexLess(token, names[0]);
      LexAsymmetric(token, names[0]);
    }
  }

  /** A generation that reads as `tree`: the active one, or with none active the backup listed first. */
  ghost predicate ReadsAs(entries: map<Name, Tree>, names: seq<string>, tree: Tree) {
    if Destination in entries then entries[Destination] == tree
    else names != [] && Backup(names[0]) in entries && entries[Backup(names[0])] == tree
  }

  /** A publication that comes this far leaves everything as it is exactly when readers see its snapshot
      already; otherwise it starts at least one operation. */
  lemma {:induction false} IdleIff(d: Disk, s: Schedule, names: seq<string>, version: string, token: string)
    requires Lists(names, d.entries) && Recover(d, s, names).clock < s.crashAt
    ensures var r := Recover(d, s, names);
      && (ReadsAs(r.entries, names, Complete(version)) <==> Publish(d, s, names, version, token).0 == r)
      && (ReadsAs(r.entries, names, Complete(version)) ==> Publish(d, s, names, version, token).1)
  {
    RecoverKeepsNames(d, s, names);
    var r := Recover(d, s, names);
    assert names != [] ==> names[0] in names;
    if !Matches(r.entries, names, version) {
      StageTakesTime(r, s, version, token);
    }
  }

  lemma {:induction false} StageTakesTime(d: Disk, s: Schedule, version: string, token: string)
    requires d.clock < s.crashAt
    ensures Stage(d, s, version, token).0.clock > d.clock
  {
  }

  /** A failed publication that is not stopped leaves its staging copy behind only if removing it throws;
      one that went through leaves none. */
  lemma {:induction false} StagingIsDropped(d: Disk, s: Schedule, version: string, token: string)
    requires Unused(d.entries, token)
    ensures var (after, done) := Stage(d, s, version, token);
      after.clock < s.crashAt && Staging(token) in after.entries ==> !done && after.clock > 0 && after.clock - 1 in s.faults
  {
    CopyState(d, s, version, token);
  }

  // ---------------------------------------------------------------------------------------------
  // Which throw does what
  // ---------------------------------------------------------------------------------------------

  /** How many of the first `j` listed backups are valid; recovery tries to rename each of those. */
  function AttemptsBefore(entries: map<Name, Tree>, names: seq<string>, j: nat): nat
    requires j <= |names|
  {
    if j == 0 then 0 else AttemptsBefore(entries, names, j - 1) + if IsValid(entries, names[j - 1]) then 1 else 0
  }

  predicate IsValid(entries: map<Name, Tree>, name: string) {
    Backup(name) in entries && entries[Backup(name)].Complete?
  }

  /** Renaming the backup at `j` throws. */
  ghost predicate Throws(d: Disk, s: Schedule, names: seq<string>, j: nat)
    requires j < |names|
  {
    d.clock + AttemptsBefore(d.entries, names, j) in s.faults
  }

  /** The backup at `k` is valid and renamed without a throw, and the renaming of every valid one before it throws. */
  ghost predicate Promotes(d: Disk, s: Schedule, names: seq<string>, k: nat)
    requires k < |names|
  {
    IsValid(d.entries, names[k]) && !Throws(d, s, names, k)
    && forall j :: 0 <= j < k && IsValid(d.entries, names[j]) ==> Throws(d, s, names, j)
  }

  lemma {:induction false} AttemptsLater(entries: map<Name, Tree>, names: seq<string>, j: nat)
    requires 0 < j <= |names|
    ensures AttemptsBefore(entries, names, j)
            == AttemptsBefore(entries, names[1..], j - 1) + if IsValid(entries, names[0]) then 1 else 0
  {
    if j > 1 {
      AttemptsLater(entries, names, j - 1);
      assert names[j - 1] == names[1..][j - 2];
    }
  }

  lemma {:induction false} ThrowsLater(d: Disk, s: Schedule, names: seq<string>, j: nat, next: Disk)
    requires 0 < j < |names| && next == Disk(d.entries, d.clock + if IsValid(d.entries, names[0]) then 1 else 0)
    ensures Throws(d, s, names, j) <==> Throws(next, s, names[1..], j - 1)
  {
    AttemptsLater(d.entries, names, j);
  }

  lemma {:induction false} PromotesLater(d: Disk, s: Schedule, names: seq<string>, k: nat, next: Disk)
    requires 0 < k < |names| && next == Disk(d.entries, d.clock + if IsValid(d.entries, names[0]) then 1 else 0)
    requires !Promotes(d, s, names, 0)
    ensures Promotes(d, s, names, k) <==> Promotes(next, s, names[1..], k - 1)
  {
    var rest := names[1..];
    forall j | 0 < j < |names| ensures rest[j - 1] == names[j] && (Throws(d, s, names, j) <==> Throws(next, s, rest, j - 1)) {
      ThrowsLater(d, s, names, j, next);
    }
    if Promotes(next, s, rest, k - 1) {
      forall j | 0 <= j < k && IsValid(d.entries, names[j]) ensures Throws(d, s, names, j) {
        assert j > 0 ==> IsValid(next.entries, rest[j - 1]);
      }
    }
    if Promotes(d, s, names, k) {
      forall j | 0 <= j < k - 1 && IsValid(next.entries, rest[j]) ensures Throws(next, s, rest, j) {
        assert rest[j] == names[j + 1] && Throws(d, s, names, j + 1);
      }
    }
  }

  /** An unstopped recovery promotes the first valid backup whose renaming does not throw, however many
      before it do, and changes nothing if there is none. */
  lemma {:induction false} RecoversIff(d: Disk, s: Schedule, names: seq<string>)
    requires Destination !in d.entries && (forall n :: n in names ==> Backup(n) in d.entries) && s.crashAt > d.clock + |names|
    ensures forall k :: 0 <= k < |names| && Promotes(d, s, names, k) ==>
              Backup(names[k]) in d.entries && Recover(d, s, names).entries == Moved(d.entries, Backup(names[k]), Destination)
    ensures (forall k :: 0 <= k < |names| ==> !Promotes(d, s, names, k)) ==> Recover(d, s, names).entries == d.entries
    decreases |names|
  {
    if names != [] {
      var rest := names[1..];
      var next := Disk(d.entries, d.clock + if IsValid(d.entries, names[0]) then 1 else 0);
      assert names[0] in names;
      if Promotes(d, s, names, 0) {
        assert forall k :: 0 < k < |names| ==> !Promotes(d, s, names, k);
      } else {
        RecoversIff(next, s, rest);
        assert Recover(d, s, names) == Recover(next, s, rest);
        forall k | 0 <= k < |rest| ensures rest[k] == names[k + 1] && (Promotes(next, s, rest, k) <==> Promotes(d, s, names, k + 1)) {
          PromotesLater(d, s, names, k + 1, next);
        }
        forall k | 0 <= k < |names| && Promotes(d, s, names, k)
          ensures Backup(names[k]) in d.entries && Recover(d, s, names).entries == Moved(d.entries, Backup(names[k]), Destination)
        {
          assert k > 0 && Promotes(next, s, rest, k - 1);
        }
      }
    }
  }

  /** An unstopped publication of a new snapshot leaves nothing active exactly when the promotion and its
      roll back both throw; if only the promotion throws, the old generation is active again and the
      publication fails. */
  lemma {:induction false} NothingActiveIff(d: Disk, s: Schedule, names: seq<string>, version: string, token: string)
    requires Destination in d.entries && Lists(names, d.entries) && Unused(d.entries, token)
    requires d.entries[Destination] != Complete(version) && s.crashAt > d.clock + 6
    ensures var (after, done) := Publish(d, s, names, version, token);
      var promoting := d.clock !in s.faults && d.clock + 1 !in s.faults && d.clock + 2 !in s.faults;
      && (Destination !in after.entries <==> promoting && d.clock + 3 in s.faults && d.clock + 4 in s.faults)
      && (promoting && d.clock + 3 in s.faults && d.clock + 4 !in s.faults ==>
            !done && Destination in after.entries && after.entries[Destination] == d.entries[Destination])
      && (promoting && d.clock + 3 !in s.faults ==>
            Destination in after.entries && after.entries[Destination] == Complete(version)
            && (done <==> d.clock + 4 !in s.faults))
  {
    CopyState(d, s, version, token);
    var (copied, ok) := Copy(d, s, version, Staging(token));
  }

  // ---------------------------------------------------------------------------------------------
  // Left-over backups
  // ---------------------------------------------------------------------------------------------

  /** Nothing throws and the machine does not stop. */
  ghost predicate Quiet(s: Schedule, start: nat) {
    s.faults == {} && s.crashAt > start + 6
  }

  /** Shard writes and deletes are refused as long as a backup is left. */
  ghost predicate RecoveryPending(entries: map<Name, Tree>) {
    exists n :: Backup(n) in entries
  }

  lemma {:induction false} QuietStage(d: Disk, s: Schedule, version: string, token: string)
    requires Unused(d.entries, token) && Quiet(s, d.clock)
    ensures var (after, done) := Stage(d, s, version, token);
      && done && Destination in after.entries && after.entries[Destination] == Complete(version)
      && Unused(after.entries, token) && OthersKept(d.entries, after.entries, token)
  {
    var copied := Copy(d, s, version, Staging(token)).0;
    CopyState(d, s, version, token);
    assert copied.clock == d.clock + 2;
  }

  /** An undisturbed publication over an active generation ends with the snapshot active, and leaves
      every backup that was there before. */
  lemma {:induction false} QuietPublishKeepsBackups(d: Disk, s: Schedule, names: seq<string>, version: string, token: string)
    requires Destination in d.entries && Lists(names, d.entries) && Unused(d.entries, token) && Quiet(s, d.clock)
    ensures var (after, done) := Publish(d, s, names, version, token);
      && done && Destination in after.entries && after.entries[Destination] == Complete(version)
      && (forall n :: Backup(n) in after.entries <==> Backup(n) in d.entries)
  {
    if d.entries[Destination] != Complete(version) {
      QuietStage(d, s, version, token);
    }
  }

  /** One full publication: its snapshot, its token and what it finds. */
  datatype Publication = Publication(schedule: Schedule, names: seq<string>, version: string, token: string)

  ghost predicate QuietPublications(entries: map<Name, Tree>, runs: seq<Publication>)
    decreases |runs|
  {
    runs == []
    || (&& Lists(runs[0].names, entries) && Unused(entries, runs[0].token) && Quiet(runs[0].schedule, 0)
        && QuietPublications(AfterPublication(entries, runs[0]), runs[1..]))
  }

  function AfterPublication(entries: map<Name, Tree>, run: Publication): map<Name, Tree>
    requires Lists(run.names, entries)
  {
    Publish(Disk(entries, 0), run.schedule, run.names, run.version, run.token).0.entries
  }

  function AfterPublications(entries: map<Name, Tree>, runs: seq<Publication>): map<Name, Tree>
    requires QuietPublications(entries, runs)
    decreases |runs|
  {
    if runs == [] then entries else AfterPublications(AfterPublication(entries, runs[0]), runs[1..])
  }

  /** While a generation is active, no number of undisturbed full publications changes whether a
      recovery is pending: a left-over backup stays. */
  lemma {:induction false} PendingStaysPending(entries: map<Name, Tree>, runs: seq<Publication>)
    requires Destination in entries && QuietPublications(entries, runs)
    ensures var after := AfterPublications(entries, runs);
      Destination in after && (RecoveryPending(after) <==> RecoveryPending(entries))
    decreases |runs|
  {
    if runs != [] {
      QuietPublishKeepsBackups(Disk(entries, 0), runs[0].schedule, runs[0].names, runs[0].version, runs[0].token);
      var next := AfterPublication(entries, runs[0]);
      assert RecoveryPending(next) <==> RecoveryPending(entries) by {
        if RecoveryPending(entries) {
          var n :| Backup(n) in entries;
          assert Backup(n) in next;
        }
      }
      PendingStaysPending(next, runs[1..]);
    }
  }

  /** The promotion went through and the removal of the backup did not. */
  predicate StopsBeforeRemoval(s: Schedule, start: nat) {
    && start !in s.faults && start + 1 !in s.faults && start + 2 !in s.faults && start + 3 !in s.faults
    && (s.crashAt == start + 4 || (s.crashAt > start + 4 && start + 4 in s.faults))
  }

  /** When a publication of a new snapshot leaves its backup beside an active generation, and that the
      new one is active then. */
  lemma {:induction false} BackupIsLeftIff(d: Disk, s: Schedule, names: seq<string>, version: string, token: string)
    requires Destination in d.entries && Lists(names, d.entries) && Unused(d.entries, token)
    requires d.entries[Destination] != Complete(version)
    ensures var after := Publish(d, s, names, version, token).0.entries;
      && (Destination in after && Backup(token) in after <==> StopsBeforeRemoval(s, d.clock))
      && (StopsBeforeRemoval(s, d.clock) ==> after[Destination] == Complete(version))
  {
    CopyState(d, s, version, token);
    var (copied, ok) := Copy(d, s, version, Staging(token));
  }

  /** Once a publication stops between promoting the new generation and removing the old one, every
      later full publication goes through and shard writes stay refused. */
  lemma {:induction false} StopBlocksShardWrites(entries: map<Name, Tree>, stopped: Publication, runs: seq<Publication>)
    requires Destination in entries && Lists(stopped.names, entries) && Unused(entries, stopped.token)
    requires entries[Destination] != Complete(stopped.version) && StopsBeforeRemoval(stopped.schedule, 0)
    requires QuietPublications(AfterPublication(entries, stopped), runs)
    ensures RecoveryPending(AfterPublications(AfterPublication(entries, stopped), runs))
  {
    BackupIsLeftIff(Disk(entries, 0), stopped.schedule, stopped.names, stopped.version, stopped.token);
    var after := AfterPublication(entries, stopped);
    assert Backup(stopped.token) in after;
    PendingStaysPending(after, runs);
  }

  /** Without an active generation an undisturbed publication uses up the first valid backup, and
      recovery is pending afterwards exactly when there was another one. */
  lemma {:induction false} QuietPublishRecovers(d: Disk, s: Schedule, names: seq<string>, k: nat, version: string, token: string)
    requires Destination !in d.entries && Lists(names, d.entries) && Unused(d.entries, token) && Quiet(s, d.clock + 1)
    requires k < |names| && (forall j :: 0 <= j < k ==> names[j] in names && d.entries[Backup(names[j])].Partial?)
    requires names[k] in names && d.entries[Backup(names[k])].Complete?
    ensures var (after, done) := Publish(d, s, names, version, token);
      && done && Destination in after.entries && after.entries[Destination] == Complete(version)
      && (forall n :: Backup(n) in after.entries <==> n != names[k] && Backup(n) in d.entries)
  {
    RecoversFirst(d, s, names, k);
    var r := Recover(d, s, names);
    if r.entries[Destination] != Complete(version) {
      QuietStage(r, s, version, token);
    }
  }

  lemma {:induction false} RecoversFirst(d: Disk, s: Schedule, names: seq<string>, k: nat)
    requires Destination !in d.entries && (forall n :: n in names ==> Backup(n) in d.entries) && Quiet(s, d.clock + 1)
    requires k < |names| && (forall j :: 0 <= j < k ==> names[j] in names && d.entries[Backup(names[j])].Partial?)
    requires names[k] in names && d.entries[Backup(names[k])].Complete?
    ensures Recover(d, s, names) == Disk(Moved(d.entries, Backup(names[k]), Destination), d.clock + 1)
    decreases k
  {
    if k > 0 {
      assert names[0] in names && forall j :: 0 <= j < k - 1 ==> names[1..][j] == names[j + 1];
      RecoversFirst(d, s, names[1..], k - 1);
    }
  }
}
