/** `setGovernancePersistence`: deciding between rewriting and appending, checking the new text with
    the YAML reader before it is written, and reading the setting back. */
module PersistenceSetting {
  import opened Seqs
  import opened Lines
  import opened BlockEdit
  import opened GovernancePersistence

  datatype Governance = Absent | NotAMapping | Mapping(persistence: Option<string>)

  /** What the YAML reader makes of a text; `others` stands for every other top-level key and value. */
  datatype Loaded = Unparsable | NotARoot | Root(governance: Governance, others: string)

  type Yaml = string -> Loaded

  datatype Refusal = NoConfig | BadYaml | RootNotMapping | GovernanceNotMapping | NotMigratable | ExpandOnly

  datatype Outcome = Changed | Unchanged | Refused(why: Refusal)

  /** The checks on the text that is about to be written. */
  predicate WriteSafe(yaml: Yaml, root: Loaded, after: string, p: Persistence)
    requires root.Root?
  {
    && yaml(after).Root?
    && yaml(after).governance == Mapping(Some(Text(p)))
    && yaml(after).others == root.others
  }

  /** The text to write, or why there is none. */
  function NextText(yaml: Yaml, before: string, p: Persistence): (string, Option<Refusal>) {
    match yaml(before)
    case Unparsable => (before, Some(BadYaml))
    case NotARoot => (before, Some(RootNotMapping))
    case Root(NotAMapping, _) => (before, Some(GovernanceNotMapping))
    case Root(Absent, _) => (AppendGovernanceBlock(before, p), None)
    case Root(Mapping(current), _) =>
      match RewriteSpec(before, p)
      case None => (before, Some(if current == Some(Text(p)) then ExpandOnly else NotMigratable))
      case Some(after) => (after, None)
  }

  function SetOutcome(yaml: Yaml, before: string, p: Persistence): Outcome {
    var next := NextText(yaml, before, p);
    if next.1.Some? then Refused(next.1.value)
    else if next.0 == before then Unchanged
    else if yaml(before).Root? && WriteSafe(yaml, yaml(before), next.0, p) then Changed
    else Refused(NotMigratable)
  }

  class ConfigFile {
    var text: Option<string>

    constructor (initial: Option<string>)
      ensures text == initial
    {
      text := initial;
    }

    method SetPersistence(yaml: Yaml, p: Persistence) returns (outcome: Outcome)
      modifies this
      ensures old(text).None? ==> outcome == Refused(NoConfig)
      ensures old(text).Some? ==> outcome == SetOutcome(yaml, old(text).value, p)
      ensures text == if outcome == Changed then Some(NextText(yaml, old(text).value, p).0) else old(text)
    {
      if text.None? {
        return Refused(NoConfig);
      }
      var before := text.value;
      var root := yaml(before);
      if root.Unparsable? {
        return Refused(BadYaml);
      } else if root.NotARoot? {
        return Refused(RootNotMapping);
      } else if root.governance.NotAMapping? {
        return Refused(GovernanceNotMapping);
      }
      var after: string;
      if root.governance.Absent? {
        after := AppendGovernanceBlock(before, p);
      } else {
        var rewritten := RewriteGovernanceBlock(before, p);
        if rewritten.None? {
          return Refused(if root.governance.persistence == Some(Text(p)) then ExpandOnly else NotMigratable);
        }
        after := rewritten.value;
      }
      if after == before {
        return Unchanged;
      }
      if !WriteSafe(yaml, root, after, p) {
        return Refused(NotMigratable);
      }
      text := Some(after);
      outcome := Changed;
    }
  }

  datatype Reading = Reads(p: Persistence) | Fails

  /** `readGovernancePersistence`: what later commands see. */
  function ReadPersistence(yaml: Yaml, text: Option<string>): Reading {
    match text
    case None => Reads(Tracked)
    case Some(t) =>
      match yaml(t)
      case Unparsable => Fails
      case NotARoot => Fails
      case Root(NotAMapping, _) => Fails
      case Root(Absent, _) => Reads(Tracked)
      case Root(Mapping(None), _) => Reads(Tracked)
      case Root(Mapping(Some(value)), _) =>
        if value == "local" then Reads(Local) else if value == "tracked" then Reads(Tracked) else Fails
  }

  /** Some line of the text opens a block. */
  ghost predicate HasBlock(text: string) {
    exists i :: 0 <= i < |Split(text)| && IsGovernanceLine(Split(text)[i])
  }

  /** When a call is refused, and why. */
  lemma {:induction false} RefusedIff(yaml: Yaml, before: string, p: Persistence)
    ensures var outcome, loaded := SetOutcome(yaml, before, p), yaml(before);
      && (outcome == Refused(BadYaml) <==> loaded.Unparsable?)
      && (outcome == Refused(RootNotMapping) <==> loaded.NotARoot?)
      && (outcome == Refused(GovernanceNotMapping) <==> loaded.Root? && loaded.governance.NotAMapping?)
      && (outcome == Refused(ExpandOnly)
          <==> loaded.Root? && loaded.governance == Mapping(Some(Text(p))) && !HasBlock(before))
      && (outcome == Refused(NotMigratable)
          <==> loaded.Root?
               && ((loaded.governance.Mapping? && loaded.governance != Mapping(Some(Text(p))) && !HasBlock(before))
                   || ((loaded.governance.Absent? || (loaded.governance.Mapping? && HasBlock(before)))
                       && NextText(yaml, before, p).0 != before && !WriteSafe(yaml, loaded, NextText(yaml, before, p).0, p))))
      && outcome != Refused(NoConfig)
  {
    var lines := Split(before);
    assert PlanEdit(Shapes(lines)).NotFound? <==> !HasBlock(before) by {
      forall i | 0 <= i < |lines| ensures Shapes(lines)[i].opens <==> IsGovernanceLine(lines[i]) {
        ShapesAt(lines, i);
      }
    }
  }

  /** When the setting reads as which value; everything else fails. */
  lemma {:induction false} ReadsIff(yaml: Yaml, text: Option<string>)
    ensures ReadPersistence(yaml, text) == Reads(Local)
            <==> text.Some? && yaml(text.value).Root? && yaml(text.value).governance == Mapping(Some("local"))
    ensures ReadPersistence(yaml, text) == Reads(Tracked)
            <==> text.None? || (yaml(text.value).Root?
                                && yaml(text.value).governance in {Absent, Mapping(None), Mapping(Some("tracked"))})
  {
    assert |"local"| == 5 && |"tracked"| == 7;
  }

  /** Every write is read back as the value that was set, with all other top-level settings kept,
      and the file differs from the old one by the appended block or by exactly one line. */
  lemma {:induction false} SetThenRead(yaml: Yaml, before: string, p: Persistence)
    requires SetOutcome(yaml, before, p) == Changed
    ensures var after := NextText(yaml, before, p).0;
      && ReadPersistence(yaml, Some(after)) == Reads(p)
      && yaml(before).Root? && yaml(after).Root? && yaml(after).others == yaml(before).others
      && (if yaml(before).governance.Absent? then before <= after else OneEdit(Split(before), Split(after), p))
  {
    WrittenIsRead(yaml, yaml(before), NextText(yaml, before, p).0, p);
    if yaml(before).governance.Absent? {
      AppendKeeps(before, p);
    } else {
      RewriteIsOneEdit(before, p);
      OneLineEdited(Split(before), p);
    }
  }

  lemma {:induction false} WrittenIsRead(yaml: Yaml, root: Loaded, after: string, p: Persistence)
    requires root.Root? && WriteSafe(yaml, root, after, p)
    ensures ReadPersistence(yaml, Some(after)) == Reads(p) && yaml(after).others == root.others
  {
    match p {
      case Local =>
      case Tracked => assert |Text(p)| == 7 && |"local"| == 5;
    }
  }

  lemma {:induction false} AppendKeeps(text: string, p: Persistence)
    ensures text <= AppendGovernanceBlock(text, p)
  {
  }

  ghost predicate OneEdit(before: seq<string>, after: seq<string>, p: Persistence) {
    || (exists i: nat :: Inserted(before, after, i, PersistenceLine(2, p)))
    || (exists i: nat, indent: nat :: Replaced(before, after, i, PersistenceLine(indent, p)))
  }

  lemma {:induction false} OneLineEdited(lines: seq<string>, p: Persistence)
    requires !PlanEdit(Shapes(lines)).NotFound?
    ensures OneEdit(lines, EditedLines(lines, p), p)
  {
    match PlanEdit(Shapes(lines)) {
      case Replace(i, indent) =>
        assert Replaced(lines, EditedLines(lines, p), i, PersistenceLine(indent, p));
      case Insert(i) =>
        assert Inserted(lines, EditedLines(lines, p), i, PersistenceLine(2, p));
    }
  }

  /** When a repeated call finds nothing left to do. */
  ghost predicate Settles(yaml: Yaml, before: string, p: Persistence) {
    yaml(before).Root?
    && if yaml(before).governance.Absent? then
         KeepsLineEnds(before) && (RewriteSpec(before, p).Some? ==> EditedLines(Split(before), p) == Split(before))
       else !InsertsTwice(Shapes(Split(before)))
  }

  lemma {:induction false} UnchangedWhenSet(yaml: Yaml, text: string, p: Persistence)
    requires yaml(text).Root? && yaml(text).governance == Mapping(Some(Text(p)))
    ensures SetOutcome(yaml, text, p) == Unchanged <==> RewriteSpec(text, p) == Some(text)
  {
  }

  /** Setting the same value again leaves the file alone, exactly when the first call kept the line
      ends and the line scan finds no block to change that the YAML reader overlooks (appending), or
      did not insert next to children indented by one (rewriting). */
  lemma {:induction false} SetTwiceIff(yaml: Yaml, before: string, p: Persistence)
    requires SetOutcome(yaml, before, p) == Changed
    ensures SetOutcome(yaml, NextText(yaml, before, p).0, p) == Unchanged <==> Settles(yaml, before, p)
  {
    UnchangedWhenSet(yaml, NextText(yaml, before, p).0, p);
    if yaml(before).governance.Absent? {
      AppendThenRewriteIff(before, p);
    } else {
      RewriteIdempotentIff(before, p);
    }
  }
}
