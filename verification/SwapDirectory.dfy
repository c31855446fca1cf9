/** A directory in which complete trees are swapped by renaming: the entry in use, staging copies and
    backups beside it, operations that may throw, and a machine that may stop before any of them. */
module SwapDirectory {
  import opened Seqs

  /** The entries of a directory: the tree in use, and what runs leave beside it. */
  datatype Name = Destination | Staging(suffix: string) | Backup(suffix: string) | Other(name: string)

  datatype Tree = Complete(version: string) | Partial

  /** Which operations of a run throw, and before which one the machine stops. */
  datatype Schedule = Schedule(faults: set<nat>, crashAt: nat)

  /** The directory and the number of operations done so far in this run. */
  datatype Disk = Disk(entries: map<Name, Tree>, clock: nat)

  // ---------------------------------------------------------------------------------------------
  // Operations
  // ---------------------------------------------------------------------------------------------

  /** An operation on a stopped machine changes nothing; a throwing one keeps the directory. */
  function Operate(d: Disk, s: Schedule, effect: map<Name, Tree>): (r: (Disk, bool)) {
    if d.clock >= s.crashAt then (d, true)
    else if d.clock in s.faults then (d.(clock := d.clock + 1), false)
    else (Disk(effect, d.clock + 1), true)
  }

  function Moved(entries: map<Name, Tree>, from: Name, to: Name): map<Name, Tree>
    requires from in entries
  {
    (entries - {from})[to := entries[from]]
  }

  function Rename(d: Disk, s: Schedule, from: Name, to: Name): (Disk, bool)
    requires from in d.entries
  {
    Operate(d, s, Moved(d.entries, from, to))
  }

  function Remove(d: Disk, s: Schedule, name: Name): (Disk, bool) {
    Operate(d, s, d.entries - {name})
  }

  /** A copy first creates the directory and fills it afterwards; a throw leaves what is there. */
  function Copy(d: Disk, s: Schedule, version: string, to: Name): (Disk, bool) {
    var (begun, ok) := Operate(d, s, d.entries[to := Partial]);
    if !ok then (begun, false) else Operate(begun, s, begun.entries[to := Complete(version)])
  }

  // ---------------------------------------------------------------------------------------------
  // The directory, changed step by step
  // ---------------------------------------------------------------------------------------------

  class Directory {
    var disk: Disk
    const schedule: Schedule

    constructor (entries: map<Name, Tree>, schedule: Schedule)
      ensures disk == Disk(entries, 0) && this.schedule == schedule
    {
      disk := Disk(entries, 0);
      this.schedule := schedule;
    }

    method RenameEntry(from: Name, to: Name) returns (ok: bool)
      requires from in disk.entries
      modifies this
      ensures (disk, ok) == Rename(old(disk), schedule, from, to)
    {
      if disk.clock >= schedule.crashAt {
        return true;
      }
      ok := disk.clock !in schedule.faults;
      disk := Disk(if ok then Moved(disk.entries, from, to) else disk.entries, disk.clock + 1);
    }

    method RemoveEntry(name: Name) returns (ok: bool)
      modifies this
      ensures (disk, ok) == Remove(old(disk), schedule, name)
    {
      if disk.clock >= schedule.crashAt {
        return true;
      }
      ok := disk.clock !in schedule.faults;
      disk := Disk(if ok then disk.entries - {name} else disk.entries, disk.clock + 1);
    }

    method PutEntry(name: Name, tree: Tree) returns (ok: bool)
      modifies this
      ensures (disk, ok) == Operate(old(disk), schedule, old(disk).entries[name := tree])
    {
      if disk.clock >= schedule.crashAt {
        return true;
      }
      ok := disk.clock !in schedule.faults;
      disk := Disk(if ok then disk.entries[name := tree] else disk.entries, disk.clock + 1);
    }

    method CopyTree(version: string, to: Name) returns (ok: bool)
      modifies this
      ensures (disk, ok) == Copy(old(disk), schedule, version, to)
    {
      ok := PutEntry(to, Partial);
      if ok {
        ok := PutEntry(to, Complete(version));
      }
    }
  }

  // ---------------------------------------------------------------------------------------------
  // Names in sort order
  // ---------------------------------------------------------------------------------------------

  predicate LexLess(a: string, b: string) {
    b != "" && (a == "" || a[0] < b[0] || (a[0] == b[0] && LexLess(a[1..], b[1..])))
  }

  /** The last of the names in sort order. */
  function SortLast(listing: seq<string>): (r: Option<string>)
    ensures r.None? <==> listing == []
    ensures r.Some? ==> r.value in listing
  {
    if listing == [] then None
    else
      var rest := SortLast(listing[1..]);
      if rest.Some? && LexLess(listing[0], rest.value) then rest else Some(listing[0])
  }

  /** The listing names exactly the backups of the directory. */
  ghost predicate Lists(listing: seq<string>, entries: map<Name, Tree>) {
    forall suffix :: suffix in listing <==> Backup(suffix) in entries
  }

  lemma {:induction false} LexTotal(a: string, b: string)
    ensures a == b || LexLess(a, b) || LexLess(b, a)
  {
    if a != "" && b != "" && a[0] == b[0] {
      LexTotal(a[1..], b[1..]);
    }
  }

  lemma {:induction false} LexTransitive(a: string, b: string, c: string)
    requires LexLess(a, b) && LexLess(b, c)
    ensures LexLess(a, c)
  {
    if a != "" && a[0] == b[0] == c[0] {
      LexTransitive(a[1..], b[1..], c[1..]);
    }
  }

  lemma {:induction false} LexIrreflexive(a: string)
    ensures !LexLess(a, a)
  {
    if a != "" {
      LexIrreflexive(a[1..]);
    }
  }

  lemma {:induction false} LexAsymmetric(a: string, b: string)
    requires LexLess(a, b)
    ensures !LexLess(b, a)
  {
    LexIrreflexive(a);
    if LexLess(b, a) {
      LexTransitive(a, b, a);
    }
  }

  /** No listed name sorts after the one that recovery picks. */
  lemma {:induction false} SortLastIsGreatest(listing: seq<string>, name: string)
    requires name in listing
    ensures !LexLess(SortLast(listing).value, name)
  {
    var rest, last := listing[1..], SortLast(listing).value;
    var tail := SortLast(rest);
    LexIrreflexive(last);
    if tail.Some? {
      LexTotal(listing[0], tail.value);
      if name in rest {
        SortLastIsGreatest(rest, name);
        if LexLess(last, name) {
          if last != tail.value {
            LexTransitive(tail.value, last, name);
          }
        }
      } else if last == tail.value && LexLess(last, name) {
        LexTransitive(last, name, last);
      }
    }
  }

  /** A name is the last one in sort order exactly when every other listed name sorts before it. */
  lemma {:induction false} SortLastIff(listing: seq<string>, x: string)
    ensures SortLast(listing) == Some(x) <==> x in listing && forall n :: n in listing && n != x ==> LexLess(n, x)
  {
    if SortLast(listing) == Some(x) {
      forall n | n in listing && n != x ensures LexLess(n, x) {
        SortLastIsGreatest(listing, n);
        LexTotal(n, x);
      }
    } else if x in listing {
      var last := SortLast(listing).value;
      SortLastIsGreatest(listing, x);
    }
  }

  lemma {:induction false} LastOfTwo(listing: seq<string>, a: string, b: string)
    requires forall name :: name in listing <==> name in {a, b}
    requires a != b
    ensures SortLast(listing) == Some(if LexLess(a, b) then b else a)
    ensures LexLess(a, b) <==> !LexLess(b, a)
  {
    assert a in listing && b in listing;
    SortLastIff(listing, a);
    SortLastIff(listing, b);
    LexTotal(a, b);
    if LexLess(a, b) {
      LexAsymmetric(a, b);
    }
  }

  // ---------------------------------------------------------------------------------------------
  // What a run may touch
  // ---------------------------------------------------------------------------------------------

  /** The suffix was never used in this directory. */
  predicate Unused(entries: map<Name, Tree>, suffix: string) {
    Staging(suffix) !in entries && Backup(suffix) !in entries
  }

  /** Everything but the destination and the two names of this run is left as it was. */
  ghost predicate OthersKept(before: map<Name, Tree>, after: map<Name, Tree>, suffix: string) {
    forall name :: name !in {Destination, Staging(suffix), Backup(suffix)} ==>
      (name in after <==> name in before) && (name in before ==> after[name] == before[name])
  }

  ghost predicate NoBackups(entries: map<Name, Tree>) {
    forall suffix :: Backup(suffix) !in entries
  }

  /** The old tree is still installed and no backup of this run exists. */
  ghost predicate Untouched(prior: Tree, entries: map<Name, Tree>, suffix: string) {
    Destination in entries && entries[Destination] == prior && Backup(suffix) !in entries
  }

  ghost predicate SetAside(prior: Tree, entries: map<Name, Tree>, suffix: string) {
    Destination !in entries && Backup(suffix) in entries && entries[Backup(suffix)] == prior
  }

  ghost predicate Promoted(prior: Tree, entries: map<Name, Tree>, version: string, suffix: string) {
    && Destination in entries && entries[Destination] == Complete(version)
    && Backup(suffix) in entries && entries[Backup(suffix)] == prior
  }

  lemma {:induction false} CopyState(d: Disk, s: Schedule, version: string, suffix: string)
    requires Unused(d.entries, suffix)
    ensures var (copied, ok) := Copy(d, s, version, Staging(suffix));
      && OthersKept(d.entries, copied.entries, suffix)
      && Backup(suffix) !in copied.entries
      && (Destination in copied.entries <==> Destination in d.entries)
      && (Destination in d.entries ==> copied.entries[Destination] == d.entries[Destination])
      && (ok <==> s.crashAt <= d.clock || (d.clock !in s.faults && (s.crashAt <= d.clock + 1 || d.clock + 1 !in s.faults)))
      && (ok && s.crashAt > d.clock + 1 ==>
            copied.clock == d.clock + 2 && Staging(suffix) in copied.entries && copied.entries[Staging(suffix)] == Complete(version))
      && (ok && s.crashAt <= d.clock + 1 ==> copied.clock >= s.crashAt)
  {
  }
}
