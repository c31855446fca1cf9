/** The configuration audit: a state file with the recorded hash, and one event file per recorded
    change.  A run may stop before any of its writes. */
module ConfigAudit {
  import opened Seqs

  type Time = int

  datatype Stored = Missing | Malformed | Recorded(hash: string, at: Time)

  datatype Event = Event(previous: string, current: string, at: Time)

  /** The configuration text, the state file, and the event files, named by their time. */
  datatype Files = Files(config: Option<string>, stored: Stored, events: map<Time, Event>)

  datatype Mode = Record | Check

  datatype Status = Initialized | ChangeRecorded | Unchanged | Drift | Uninitialized | MissingConfig

  datatype Outcome = Returned(status: Status, current: Option<string>, previous: Option<string>) | Unavailable | Stopped

  /** A hash is on record and the configuration has another one. */
  predicate HasChanged(files: Files, hash: string -> string) {
    files.config.Some? && files.stored.Recorded? && files.stored.hash != hash(files.config.value)
  }

  /** What a call that is to record would have to write: the state alone at first, and later the event
      and then the state. */
  function WritesNeeded(files: Files, hash: string -> string, mode: Mode): nat {
    if mode == Check || files.config.None? then 0
    else if files.stored.Missing? then 1
    else if HasChanged(files, hash) then 2
    else 0
  }

  /** Which outcome a call has, and both hashes it reports: that of the configuration, and the one on record. */
  predicate Reports(files: Files, hash: string -> string, mode: Mode, writes: nat, outcome: Outcome) {
    && (outcome == Stopped <==> writes < WritesNeeded(files, hash, mode))
    && (outcome == Unavailable <==> files.config.Some? && files.stored.Malformed?)
    && (outcome.Returned? ==>
          && (outcome.status == MissingConfig <==> files.config.None?)
          && (outcome.status == Uninitialized <==> files.config.Some? && files.stored.Missing? && mode == Check)
          && (outcome.status == Initialized <==> files.config.Some? && files.stored.Missing? && mode == Record)
          && (outcome.status == Unchanged <==> files.config.Some? && files.stored.Recorded? && !HasChanged(files, hash))
          && (outcome.status == Drift <==> HasChanged(files, hash) && mode == Check)
          && (outcome.status == ChangeRecorded <==> HasChanged(files, hash) && mode == Record)
          && outcome.current == (if files.config.Some? then Some(hash(files.config.value)) else None)
          && outcome.previous == (if files.config.Some? && files.stored.Recorded? then Some(files.stored.hash) else None))
  }

  /** What is on file afterwards: the event of a change once the first of two writes is through, and the
      new state once all are. */
  predicate Leaves(files: Files, hash: string -> string, mode: Mode, now: Time, writes: nat, after: Files) {
    && after.config == files.config
    && after.events == (if WritesNeeded(files, hash, mode) == 2 && writes >= 1
                        then files.events[now := Event(files.stored.hash, hash(files.config.value), now)] else files.events)
    && after.stored == (if 0 < WritesNeeded(files, hash, mode) <= writes
                        then Recorded(hash(files.config.value), now) else files.stored)
  }

  /** One call at time `now` that may do `writes` writes before the machine stops. */
  function Audit(files: Files, hash: string -> string, mode: Mode, now: Time, writes: nat): (r: (Files, Outcome))
    ensures Reports(files, hash, mode, writes, r.1)
    ensures Leaves(files, hash, mode, now, writes, r.0)
  {
    if files.config.None? then (files, Returned(MissingConfig, None, None))
    else
      var current := hash(files.config.value);
      match files.stored
      case Malformed => (files, Unavailable)
      case Missing =>
        if mode == Check then (files, Returned(Uninitialized, Some(current), None))
        else if writes == 0 then (files, Stopped)
        else (files.(stored := Recorded(current, now)), Returned(Initialized, Some(current), None))
      case Recorded(previous, _) =>
        if previous == current then (files, Returned(Unchanged, Some(current), Some(previous)))
        else if mode == Check then (files, Returned(Drift, Some(current), Some(previous)))
        else if writes == 0 then (files, Stopped)
        else
          var logged := files.(events := files.events[now := Event(previous, current, now)]);
          if writes == 1 then (logged, Stopped)
          else (logged.(stored := Recorded(current, now)), Returned(ChangeRecorded, Some(current), Some(previous)))
  }

  class AuditDirectory {
    var config: Option<string>
    var stored: Stored
    var events: map<Time, Event>

    constructor (config: Option<string>)
      ensures View() == Files(config, Missing, map[])
    {
      this.config, stored, events := config, Missing, map[];
    }

    function View(): Files
      reads this
    {
      Files(config, stored, events)
    }

    method Edit(text: string)
      modifies this
      ensures View() == old(View()).(config := Some(text))
    {
      config := Some(text);
    }

    method AuditConfig(hash: string -> string, mode: Mode, now: Time, writes: nat) returns (outcome: Outcome)
      modifies this
      ensures (View(), outcome) == Audit(old(View()), hash, mode, now, writes)
    {
      if config.None? {
        return Returned(MissingConfig, None, None);
      }
      var currentHash := hash(config.value);
      if stored.Malformed? {
        return Unavailable;
      }
      if stored.Missing? {
        if mode == Check {
          return Returned(Uninitialized, Some(currentHash), None);
        }
        if writes == 0 {
          return Stopped;
        }
        stored := Recorded(currentHash, now);
        return Returned(Initialized, Some(currentHash), None);
      }
      var previousHash := stored.hash;
      if previousHash == currentHash {
        return Returned(Unchanged, Some(currentHash), Some(previousHash));
      }
      if mode == Check {
        return Returned(Drift, Some(currentHash), Some(previousHash));
      }
      if writes == 0 {
        return Stopped;
      }
      events := events[now := Event(previousHash, currentHash, now)];
      if writes == 1 {
        return Stopped;
      }
      stored := Recorded(currentHash, now);
      outcome := Returned(ChangeRecorded, Some(currentHash), Some(previousHash));
    }
  }

  // ---------------------------------------------------------------------------------------------
  // One call
  // ---------------------------------------------------------------------------------------------

  /** Check mode never writes, and reports drift exactly when the configuration's hash is not the
      recorded one. */
  lemma {:induction false} CheckReportsDrift(files: Files, hash: string -> string, now: Time, writes: nat)
    ensures var (after, outcome) := Audit(files, hash, Check, now, writes);
      && after == files
      && (outcome.Returned? && outcome.status == Drift
          <==> files.config.Some? && files.stored.Recorded? && files.stored.hash != hash(files.config.value))
      && (outcome == Unavailable <==> files.config.Some? && files.stored.Malformed?)
      && outcome != Stopped
  {
  }

  /** A finished record leaves a state that check mode accepts, whenever it is asked. */
  lemma {:induction false} RecordSettles(files: Files, hash: string -> string, now: Time, later: Time)
    requires files.config.Some? && !files.stored.Malformed?
    ensures var after := Audit(files, hash, Record, now, 2).0;
      && after.config == files.config
      && Audit(after, hash, Check, later, 0) == (after, Returned(Unchanged, Some(hash(files.config.value)), Some(hash(files.config.value))))
      && Audit(after, hash, Record, later, 2).0 == after
  {
  }

  // ---------------------------------------------------------------------------------------------
  // The log over whole runs
  // ---------------------------------------------------------------------------------------------

  /** Each event starts from the hash the one before it ended with, and times increase. */
  ghost predicate Chained(from: string, chain: seq<Event>, to: string)
    decreases |chain|
  {
    if chain == [] then from == to
    else chain[0].previous == from && Chained(chain[0].current, chain[1..], to)
         && (|chain| > 1 ==> chain[0].at < chain[1].at)
  }

  /** A hash the chain passes through. */
  ghost predicate OnChain(from: string, chain: seq<Event>, h: string) {
    h == from || exists i :: 0 <= i < |chain| && chain[i].current == h
  }

  /** The events of the chain are all on file, nothing on file is later than `last`, and whatever
      else is on file started from a hash of the chain. */
  ghost predicate Explains(files: Files, initial: string, chain: seq<Event>, last: Time) {
    && files.stored.Recorded?
    && Chained(initial, chain, files.stored.hash)
    && (forall i :: 0 <= i < |chain| ==> chain[i].at in files.events && files.events[chain[i].at] == chain[i])
    && (forall t :: t in files.events ==> t <= last && OnChain(initial, chain, files.events[t].previous))
  }

  lemma {:induction false} ChainGrows(from: string, chain: seq<Event>, to: string, e: Event)
    requires Chained(from, chain, to) && e.previous == to
    requires forall i :: 0 <= i < |chain| ==> chain[i].at < e.at
    ensures Chained(from, chain + [e], e.current)
    decreases |chain|
  {
    if chain == [] {
      assert chain + [e] == [e] && [e][1..] == [];
    } else {
      ChainGrows(chain[0].current, chain[1..], to, e);
      assert (chain + [e])[1..] == chain[1..] + [e];
    }
  }

  lemma {:induction false} EndOnChain(from: string, chain: seq<Event>, to: string)
    requires Chained(from, chain, to)
    ensures OnChain(from, chain, to)
    decreases |chain|
  {
    if chain != [] {
      EndOnChain(chain[0].current, chain[1..], to);
      if to != chain[0].current {
        var i :| 0 <= i < |chain[1..]| && chain[1..][i].current == to;
        assert chain[i + 1].current == to;
      }
    }
  }

  lemma {:induction false} OnLongerChain(from: string, chain: seq<Event>, e: Event, h: string)
    requires OnChain(from, chain, h)
    ensures OnChain(from, chain + [e], h)
  {
    if h != from {
      var i :| 0 <= i < |chain| && chain[i].current == h;
      assert (chain + [e])[i].current == h;
    }
  }

  datatype Step = Edit(text: string) | Call(mode: Mode, now: Time, writes: nat)

  function AfterStep(files: Files, hash: string -> string, step: Step): Files {
    match step
    case Edit(text) => files.(config := Some(text))
    case Call(mode, now, writes) => Audit(files, hash, mode, now, writes).0
  }

  function AfterSteps(files: Files, hash: string -> string, steps: seq<Step>): Files
    decreases |steps|
  {
    if steps == [] then files else AfterSteps(AfterStep(files, hash, steps[0]), hash, steps[1..])
  }

  /** The clock of the calls is strictly increasing. */
  ghost predicate ClockRises(steps: seq<Step>, last: Time)
    decreases |steps|
  {
    steps == []
    || if steps[0].Call? then last < steps[0].now && ClockRises(steps[1..], steps[0].now) else ClockRises(steps[1..], last)
  }

  function LastTime(steps: seq<Step>, last: Time): Time
    decreases |steps|
  {
    if steps == [] then last else LastTime(steps[1..], if steps[0].Call? then steps[0].now else last)
  }

  /** The event a call adds to the chain when it gets to its second write. */
  function Lengthened(files: Files, hash: string -> string, step: Step, chain: seq<Event>): seq<Event> {
    if step.Call? && Audit(files, hash, step.mode, step.now, step.writes).1.Returned?
       && Audit(files, hash, step.mode, step.now, step.writes).1.status == ChangeRecorded && step.now in AfterStep(files, hash, step).events
    then chain + [AfterStep(files, hash, step).events[step.now]] else chain
  }

  lemma {:induction false} LoggedOnce(files: Files, initial: string, chain: seq<Event>, last: Time, e: Event, at: Time)
    requires Explains(files, initial, chain, last) && last < e.at && e.previous == files.stored.hash
    ensures Explains(files.(events := files.events[e.at := e]), initial, chain, e.at)
    ensures Explains(files.(events := files.events[e.at := e], stored := Recorded(e.current, at)), initial, chain + [e], e.at)
  {
    var logged := files.(events := files.events[e.at := e]);
    EndOnChain(initial, chain, files.stored.hash);
    forall i | 0 <= i < |chain| ensures chain[i].at in logged.events && logged.events[chain[i].at] == chain[i] && chain[i].at < e.at {
      assert chain[i].at in files.events;
    }
    ChainGrows(initial, chain, files.stored.hash, e);
    forall t | t in logged.events ensures t <= e.at && OnChain(initial, chain, logged.events[t].previous)
      ensures OnChain(initial, chain + [e], logged.events[t].previous)
    {
      OnLongerChain(initial, chain, e, logged.events[t].previous);
    }
  }

  lemma {:induction false} StepExplains(files: Files, hash: string -> string, step: Step, initial: string, chain: seq<Event>, last: Time)
    requires Explains(files, initial, chain, last) && (step.Call? ==> last < step.now)
    ensures Explains(AfterStep(files, hash, step), initial, Lengthened(files, hash, step, chain), if step.Call? then step.now else last)
  {
    if step.Call? && files.config.Some? {
      var current := hash(files.config.value);
      LoggedOnce(files, initial, chain, last, Event(files.stored.hash, current, step.now), step.now);
    }
  }

  /** For any edits, checks, records and stops between the writes, with a strictly increasing clock,
      some of the events on file lead from the first recorded hash to the stored one in order of
      time, and every other event started from a hash of that chain. */
  lemma {:induction false} LogExplainsState(files: Files, hash: string -> string, steps: seq<Step>, initial: string,
                                            chain: seq<Event>, last: Time) returns (final: seq<Event>)
    requires Explains(files, initial, chain, last) && ClockRises(steps, last)
    ensures Explains(AfterSteps(files, hash, steps), initial, final, LastTime(steps, last))
    ensures chain <= final
    decreases |steps|
  {
    if steps == [] {
      final := chain;
    } else {
      StepExplains(files, hash, steps[0], initial, chain, last);
      final := LogExplainsState(AfterStep(files, hash, steps[0]), hash, steps[1..], initial, Lengthened(files, hash, steps[0], chain),
                                if steps[0].Call? then steps[0].now else last);
    }
  }

  /** The first record starts an empty chain. */
  lemma {:induction false} InitializedExplains(text: string, hash: string -> string, now: Time, writes: nat)
    requires writes > 0
    ensures var (after, outcome) := Audit(Files(Some(text), Missing, map[]), hash, Record, now, writes);
      outcome == Returned(Initialized, Some(hash(text)), None) && Explains(after, hash(text), [], now)
  {
  }

  lemma {:induction false} TwoSteps(files: Files, hash: string -> string, first: Step, second: Step, rest: seq<Step>)
    ensures AfterSteps(files, hash, [first, second] + rest) == AfterSteps(AfterStep(AfterStep(files, hash, first), hash, second), hash, rest)
  {
    var steps := [first, second] + rest;
    assert steps[1..] == [second] + rest && ([second] + rest)[1..] == rest;
  }

  /** With two records at the same time the second event overwrites the first one, and no chain on
      file starts from the first recorded hash any more. */
  lemma {:induction false} SameTimeBreaksTheLog(hash: string -> string, a: string, b: string, c: string, start: Time, now: Time)
    requires hash(a) != hash(b) && hash(b) != hash(c) && hash(a) != hash(c)
    ensures var begun := Audit(Files(Some(a), Missing, map[]), hash, Record, start, 1).0;
      var after := AfterSteps(begun, hash, [Edit(b), Call(Record, now, 2), Edit(c), Call(Record, now, 2)]);
      forall chain, last :: !Explains(after, hash(a), chain, last)
  {
    var begun := Audit(Files(Some(a), Missing, map[]), hash, Record, start, 1).0;
    var second: seq<Step> := [Edit(c), Call(Record, now, 2)];
    var once := AfterStep(AfterStep(begun, hash, Edit(b)), hash, Call(Record, now, 2));
    var after := AfterStep(AfterStep(once, hash, Edit(c)), hash, Call(Record, now, 2));
    TwoSteps(begun, hash, Edit(b), Call(Record, now, 2), second);
    TwoSteps(once, hash, Edit(c), Call(Record, now, 2), []);
    assert [Edit(b), Call(Record, now, 2), Edit(c), Call(Record, now, 2)] == [Edit(b), Call(Record, now, 2)] + second;
    assert second == [Edit(c), Call(Record, now, 2)] + [];
    assert after.events == map[now := Event(hash(b), hash(c), now)];
    forall chain: seq<Event>, last | Explains(after, hash(a), chain, last) ensures false {
      if chain != [] {
        assert false;
      }
    }
  }
}
