/** Setting `governance.persistence` by editing the configuration text in place. */
module GovernancePersistence {
  import opened Seqs
  import opened Lines
  import opened BlockEdit

  // ---------------------------------------------------------------------------------------------
  // The line shapes the editor recognises
  // ---------------------------------------------------------------------------------------------

  function IndentOf(line: string): (n: nat)
    ensures n <= |line| && (forall i :: 0 <= i < n ==> IsBlank(line[i])) && (n < |line| ==> !IsBlank(line[n]))
  {
    if line == "" || !IsBlank(line[0]) then 0 else 1 + IndentOf(line[1..])
  }

  function FirstHash(s: string): (n: nat)
    ensures n <= |s| && (forall i :: 0 <= i < n ==> s[i] != '#') && (n < |s| ==> s[n] == '#')
  {
    if s == "" || s[0] == '#' then 0 else 1 + FirstHash(s[1..])
  }

  /** Nothing, or a comment that runs to the end of the line. */
  predicate IsComment(s: string) {
    s == "" || (s[0] == '#' && forall i :: 0 <= i < |s| ==> !IsLineTerminator(s[i]))
  }

  /** A top-level `governance:` key that opens a block. */
  predicate IsGovernanceLine(line: string) {
    "governance:" <= line && IsComment(line[11..][IndentOf(line[11..])..])
  }

  /** A `persistence:` key at any indent, with any plain value and comment. */
  predicate IsPersistenceLine(line: string) {
    var body := line[IndentOf(line)..];
    && "persistence:" <= body
    && var rest := body[12..];
       (forall i :: 0 <= i < FirstHash(rest) ==> rest[i] != '\r' && rest[i] != '\n') && IsComment(rest[FirstHash(rest)..])
  }

  ghost predicate AllBlank(s: string) {
    forall i :: 0 <= i < |s| ==> s[i] == ' ' || s[i] == '\t'
  }

  /** Nothing, or a hash sign and whatever follows on the line. */
  ghost predicate IsTrailer(s: string) {
    s == "" || (s[0] == '#' && forall i :: 0 <= i < |s| ==> s[i] as int !in {10, 13, 8232, 8233})
  }

  ghost predicate IsPlain(s: string) {
    forall i :: 0 <= i < |s| ==> s[i] != '#' && s[i] != '\r' && s[i] != '\n'
  }

  /** A line opens the block exactly when it is the key at the left margin, blanks, and perhaps a comment. */
  lemma {:induction false} GovernanceLineIff(line: string)
    ensures IsGovernanceLine(line)
            <==> exists blanks, trailer :: line == "governance:" + (blanks + trailer) && AllBlank(blanks) && IsTrailer(trailer)
  {
    if IsGovernanceLine(line) {
      var rest := line[11..];
      var blanks, trailer := rest[..IndentOf(rest)], rest[IndentOf(rest)..];
      assert rest == blanks + trailer && line == "governance:" + rest;
    }
    forall blanks, trailer | line == "governance:" + (blanks + trailer) && AllBlank(blanks) && IsTrailer(trailer)
      ensures IsGovernanceLine(line)
    {
      assert line[11..] == blanks + trailer;
      IndentIs(blanks, trailer);
      assert (blanks + trailer)[|blanks|..] == trailer;
    }
  }

  lemma {:induction false} FirstHashIs(value: string, trailer: string)
    requires IsPlain(value) && IsTrailer(trailer)
    ensures FirstHash(value + trailer) == |value| && (value + trailer)[|value|..] == trailer
  {
    if value == "" {
      assert value + trailer == trailer;
    } else {
      assert (value + trailer)[1..] == value[1..] + trailer;
      FirstHashIs(value[1..], trailer);
    }
  }

  /** The line is blanks, the key, a plain value and perhaps a comment. */
  ghost predicate IsSetting(line: string, indent: string, value: string, trailer: string) {
    line == indent + ("persistence:" + (value + trailer)) && AllBlank(indent) && IsPlain(value) && IsTrailer(trailer)
  }

  lemma {:induction false} SettingSplits(line: string) returns (indent: string, value: string, trailer: string)
    requires IsPersistenceLine(line)
    ensures IsSetting(line, indent, value, trailer)
  {
    var n := IndentOf(line);
    var body := line[n..];
    var rest := body[12..];
    indent, value, trailer := line[..n], rest[..FirstHash(rest)], rest[FirstHash(rest)..];
    assert rest == value + trailer && body == "persistence:" + rest && line == indent + body;
  }

  lemma {:induction false} SettingReads(indent: string, value: string, trailer: string)
    requires AllBlank(indent) && IsPlain(value) && IsTrailer(trailer)
    ensures IsPersistenceLine(indent + ("persistence:" + (value + trailer)))
  {
    var body := "persistence:" + (value + trailer);
    var line := indent + body;
    IndentIs(indent, body);
    assert line[|indent|..] == body && body[12..] == value + trailer;
    FirstHashIs(value, trailer);
    assert forall i :: 0 <= i < |value| ==> (value + trailer)[i] == value[i];
  }

  /** Which lines hold the setting. */
  lemma {:induction false} PersistenceLineIff(line: string)
    ensures IsPersistenceLine(line) <==> exists indent, value, trailer :: IsSetting(line, indent, value, trailer)
  {
    if IsPersistenceLine(line) {
      var indent, value, trailer := SettingSplits(line);
    }
    forall indent, value, trailer | IsSetting(line, indent, value, trailer) ensures IsPersistenceLine(line) {
      SettingReads(indent, value, trailer);
    }
  }

  function Spaces(n: nat): (r: string)
    ensures |r| == n && forall i :: 0 <= i < n ==> r[i] == ' '
  {
    if n == 0 then "" else " " + Spaces(n - 1)
  }

  datatype Persistence = Local | Tracked

  function Text(p: Persistence): string {
    match p case Local => "local" case Tracked => "tracked"
  }

  function PersistenceLine(indent: nat, p: Persistence): string {
    Spaces(indent) + ("persistence: " + Text(p))
  }

  // ---------------------------------------------------------------------------------------------
  // The edit
  // ---------------------------------------------------------------------------------------------

  function ShapeOf(line: string): Shape {
    Shape(IsGovernanceLine(line), IsPersistenceLine(line), IsEmptyLine(line), IndentOf(line))
  }

  function Shapes(lines: seq<string>): (r: seq<Shape>)
    ensures |r| == |lines|
  {
    if lines == [] then [] else [ShapeOf(lines[0])] + Shapes(lines[1..])
  }

  lemma {:induction false} ShapesAt(lines: seq<string>, i: nat)
    requires i < |lines|
    ensures Shapes(lines)[i] == ShapeOf(lines[i])
  {
    if i > 0 {
      ShapesAt(lines[1..], i - 1);
    }
  }

  lemma {:induction false} ShapesAppend(a: seq<string>, b: seq<string>)
    ensures Shapes(a + b) == Shapes(a) + Shapes(b)
  {
    if a == [] {
      assert a + b == b;
    } else {
      assert (a + b)[1..] == a[1..] + b;
      ShapesAppend(a[1..], b);
    }
  }

  lemma {:induction false} ShapesAround(a: seq<string>, line: string, b: seq<string>)
    ensures Shapes(a + [line] + b) == Shapes(a) + [ShapeOf(line)] + Shapes(b)
  {
    ShapesAppend(a + [line], b);
    ShapesAppend(a, [line]);
    assert [line][1..] == [];
  }

  function EditedLines(lines: seq<string>, p: Persistence): seq<string> {
    ApplyEdit(lines, PlanEdit(Shapes(lines)), indent => PersistenceLine(indent, p))
  }

  function RewriteSpec(text: string, p: Persistence): Option<string> {
    var lines := Split(text);
    if PlanEdit(Shapes(lines)).NotFound? then None else Some(Join(EditedLines(lines, p), NewlineOf(text)))
  }

  method LocateBlockEnd(lines: seq<string>, indent: nat, from: nat) returns (blockEnd: nat)
    requires from <= |lines|
    ensures blockEnd == BlockEnd(Shapes(lines), indent, from)
  {
    blockEnd := |lines|;
    for index := from to |lines|
      invariant blockEnd == |lines| && BlockEnd(Shapes(lines), indent, from) == BlockEnd(Shapes(lines), indent, index)
    {
      var shape := ShapeOf(lines[index]);
      ShapesAt(lines, index);
      if !shape.empty && shape.indent <= indent {
        return index;
      }
    }
  }

  method LocateChildIndent(lines: seq<string>, from: nat, blockEnd: nat) returns (childIndent: Option<nat>)
    requires from <= blockEnd <= |lines|
    ensures childIndent == ChildIndent(Shapes(lines), from, blockEnd)
  {
    childIndent := None;
    for index := from to blockEnd
      invariant childIndent == ChildIndent(Shapes(lines), from, index)
    {
      var shape := ShapeOf(lines[index]);
      ShapesAt(lines, index);
      if !shape.empty && (childIndent.None? || shape.indent < childIndent.value) {
        childIndent := Some(shape.indent);
      }
    }
  }

  method LocatePersistence(lines: seq<string>, indent: nat, from: nat, blockEnd: nat) returns (persistenceIndex: nat)
    requires from <= blockEnd <= |lines|
    ensures persistenceIndex == FindKey(Shapes(lines), indent, from, blockEnd)
  {
    for index := from to blockEnd
      invariant FindKey(Shapes(lines), indent, from, blockEnd) == FindKey(Shapes(lines), indent, index, blockEnd)
    {
      var shape := ShapeOf(lines[index]);
      ShapesAt(lines, index);
      if shape.indent == indent && shape.key {
        return index;
      }
    }
    persistenceIndex := blockEnd;
  }

  method LocateGovernance(lines: seq<string>) returns (governanceIndex: nat)
    ensures governanceIndex == FindOpener(Shapes(lines), 0)
  {
    for index := 0 to |lines|
      invariant FindOpener(Shapes(lines), 0) == FindOpener(Shapes(lines), index)
    {
      ShapesAt(lines, index);
      if ShapeOf(lines[index]).opens {
        return index;
      }
    }
    governanceIndex := |lines|;
  }

  /** Scans for the block, its child indent and its persistence line, then edits the lines in place. */
  method RewriteGovernanceBlock(text: string, p: Persistence) returns (r: Option<string>)
    ensures r == RewriteSpec(text, p)
  {
    var newline := NewlineOf(text);
    var lines := EditLines(Split(text), p);
    if lines.None? {
      return None;
    }
    r := Some(Join(lines.value, newline));
  }

  method EditLines(before: seq<string>, p: Persistence) returns (r: Option<seq<string>>)
    ensures r == if PlanEdit(Shapes(before)).NotFound? then None else Some(EditedLines(before, p))
  {
    var lines := before;
    var governanceIndex := LocateGovernance(lines);
    if governanceIndex == |lines| {
      return None;
    }
    var governanceIndent := ShapeOf(lines[governanceIndex]).indent;
    assert governanceIndent == 0 by {
      ShapesAt(lines, governanceIndex);
      GovernanceAtMargin(lines[governanceIndex]);
    }
    var from: nat := governanceIndex + 1;
    var blockEnd := LocateBlockEnd(lines, governanceIndent, from);
    var childIndent := LocateChildIndent(lines, from, blockEnd);
    if childIndent.Some? {
      var persistenceIndex := LocatePersistence(lines, childIndent.value, from, blockEnd);
      if persistenceIndex < blockEnd {
        lines := lines[persistenceIndex := PersistenceLine(childIndent.value, p)];
        return Some(lines);
      }
    }
    lines := lines[..from] + [PersistenceLine(governanceIndent + 2, p)] + lines[from..];
    r := Some(lines);
  }

  lemma {:induction false} GovernanceAtMargin(line: string)
    requires IsGovernanceLine(line)
    ensures IndentOf(line) == 0 && !IsEmptyLine(line)
  {
    assert line[0] == 'g';
  }

  lemma {:induction false} PersistenceNotEmpty(line: string)
    requires IsPersistenceLine(line)
    ensures !IsEmptyLine(line)
  {
    assert line[IndentOf(line)..][0] == 'p';
    assert line[IndentOf(line)] == 'p' && !IsSpace('p');
  }

  lemma {:induction false} ShapesSound(lines: seq<string>)
    ensures Sound(Shapes(lines))
  {
    forall i | 0 <= i < |lines|
      ensures Shapes(lines)[i].opens ==> Shapes(lines)[i].indent == 0 && !Shapes(lines)[i].empty
      ensures Shapes(lines)[i].key ==> !Shapes(lines)[i].empty
    {
      ShapesAt(lines, i);
      if IsGovernanceLine(lines[i]) {
        GovernanceAtMargin(lines[i]);
      }
      if IsPersistenceLine(lines[i]) {
        PersistenceNotEmpty(lines[i]);
      }
    }
  }

  lemma {:induction false} PersistenceBody(p: Persistence)
    ensures var rest := " " + Text(p);
      FirstHash(rest) == |rest| && forall i :: 0 <= i < |rest| ==> rest[i] != '\r' && rest[i] != '\n'
  {
    match p {
      case Local => assert " " + Text(p) == " local";
      case Tracked => assert " " + Text(p) == " tracked";
    }
  }

  /** The line the editor writes is one it recognises again, at the indent it was written with. */
  lemma {:induction false} PersistenceLineShape(indent: nat, p: Persistence)
    ensures IndentOf(PersistenceLine(indent, p)) == indent && IsPersistenceLine(PersistenceLine(indent, p))
  {
    var line, body, rest := PersistenceLine(indent, p), "persistence: " + Text(p), " " + Text(p);
    IndentIs(Spaces(indent), body);
    assert line[indent..] == body && body[12..] == rest;
    PersistenceBody(p);
  }

  lemma {:induction false} PersistenceLineKind(indent: nat, p: Persistence)
    ensures var line := PersistenceLine(indent, p);
      !IsEmptyLine(line) && !IsGovernanceLine(line) && '\n' !in line && !EndsInCr(line)
  {
    var line, body := PersistenceLine(indent, p), "persistence: " + Text(p);
    assert line[indent] == body[0] == 'p';
    assert !IsSpace(line[indent]);
    assert line[0] == if indent == 0 then 'p' else ' ';
    forall i | 0 <= i < |line| ensures line[i] != '\n' && line[i] != '\r' {
      BodyHasNoBreak(p);
      if i >= indent {
        assert line[i] == body[i - indent];
      }
    }
  }

  lemma {:induction false} BodyHasNoBreak(p: Persistence)
    ensures var body := "persistence: " + Text(p);
      forall i :: 0 <= i < |body| ==> body[i] != '\n' && body[i] != '\r'
  {
    match p {
      case Local => assert "persistence: " + Text(p) == "persistence: local";
      case Tracked => assert "persistence: " + Text(p) == "persistence: tracked";
    }
  }

  lemma {:induction false} IndentIs(blank: string, rest: string)
    requires forall i :: 0 <= i < |blank| ==> IsBlank(blank[i])
    requires rest == "" || !IsBlank(rest[0])
    ensures IndentOf(blank + rest) == |blank|
  {
    if blank == "" {
      assert blank + rest == rest;
    } else {
      assert (blank + rest)[1..] == blank[1..] + rest;
      IndentIs(blank[1..], rest);
    }
  }

  /** The line the editor writes has the shape of the key at its indent. */
  lemma {:induction false} WrittenShape(indent: nat, p: Persistence)
    ensures ShapeOf(PersistenceLine(indent, p)) == KeyShape(indent)
  {
    PersistenceLineShape(indent, p);
    PersistenceLineKind(indent, p);
  }

  lemma {:induction false} ReplacedShapes(lines: seq<string>, i: nat, line: string)
    requires i < |lines|
    ensures Shapes(lines[i := line]) == Shapes(lines)[i := ShapeOf(line)]
  {
    var after, expected := Shapes(lines[i := line]), Shapes(lines)[i := ShapeOf(line)];
    forall j | 0 <= j < |lines| ensures after[j] == expected[j] {
      ShapesAt(lines[i := line], j);
      ShapesAt(lines, j);
    }
  }

  lemma {:induction false} InsertedShapes(lines: seq<string>, i: nat, line: string)
    requires i <= |lines|
    ensures Shapes(lines[..i] + [line] + lines[i..]) == Shapes(lines)[..i] + [ShapeOf(line)] + Shapes(lines)[i..]
  {
    ShapesAround(lines[..i], line, lines[i..]);
    ShapesAppend(lines[..i], lines[i..]);
    assert lines == lines[..i] + lines[i..];
  }

  lemma {:induction false} EditedShapes(lines: seq<string>, p: Persistence)
    ensures Shapes(EditedLines(lines, p)) == ApplyEdit(Shapes(lines), PlanEdit(Shapes(lines)), KeyShape)
  {
    match PlanEdit(Shapes(lines)) {
      case NotFound =>
      case Replace(i, indent) =>
        WrittenShape(indent, p);
        ReplacedShapes(lines, i, PersistenceLine(indent, p));
      case Insert(i) =>
        WrittenShape(2, p);
        InsertedShapes(lines, i, PersistenceLine(2, p));
    }
  }

  // ---------------------------------------------------------------------------------------------
  // Framing
  // ---------------------------------------------------------------------------------------------

  lemma {:induction false} GovernanceHasNoCr(line: string)
    requires IsGovernanceLine(line)
    ensures !EndsInCr(line)
  {
    var rest := line[11..];
    var comment := rest[IndentOf(rest)..];
    if comment != "" {
      assert line[|line| - 1] == comment[|comment| - 1];
    } else if rest != "" {
      assert line[|line| - 1] == rest[|rest| - 1];
    } else {
      assert line == "governance:";
    }
  }

  lemma {:induction false} ReplaceSeparable(lines: seq<string>, nl: string, i: nat, line: string)
    requires Separable(lines, nl) && i < |lines| && '\n' !in line && !EndsInCr(line)
    ensures Separable(lines[i := line], nl)
  {
  }

  lemma {:induction false} InsertSeparable(lines: seq<string>, nl: string, i: nat, line: string)
    requires Separable(lines, nl) && 0 < i <= |lines| && '\n' !in line && !EndsInCr(line) && !EndsInCr(lines[i - 1])
    ensures Separable(lines[..i] + [line] + lines[i..], nl)
  {
    var r := lines[..i] + [line] + lines[i..];
    assert forall j :: 0 <= j < |r| ==> r[j] == if j < i then lines[j] else if j == i then line else lines[j - 1];
  }

  lemma {:induction false} EditSeparable(lines: seq<string>, nl: string, p: Persistence)
    requires Separable(lines, nl)
    ensures Separable(EditedLines(lines, p), nl)
  {
    match PlanEdit(Shapes(lines)) {
      case NotFound =>
      case Replace(i, indent) =>
        PersistenceLineKind(indent, p);
        ReplaceSeparable(lines, nl, i, PersistenceLine(indent, p));
      case Insert(i) =>
        PersistenceLineKind(2, p);
        ShapesAt(lines, i - 1);
        GovernanceHasNoCr(lines[i - 1]);
        InsertSeparable(lines, nl, i, PersistenceLine(2, p));
    }
  }

  /** The lines of the rewritten text are the old lines with exactly one replaced or one inserted. */
  lemma {:induction false} RewriteIsOneEdit(text: string, p: Persistence)
    requires RewriteSpec(text, p).Some?
    ensures Split(RewriteSpec(text, p).value) == EditedLines(Split(text), p)
  {
    SplitSeparable(text);
    EditSeparable(Split(text), NewlineOf(text), p);
    SplitJoin(EditedLines(Split(text), p), NewlineOf(text));
  }

  ghost predicate Inserted(before: seq<string>, after: seq<string>, i: nat, line: string) {
    i <= |before| && after == before[..i] + [line] + before[i..]
  }

  ghost predicate Replaced(before: seq<string>, after: seq<string>, i: nat, line: string) {
    i < |before| && after == before[i := line]
  }

  /** With uniform line ends the text before and the text after are joins of the same lines but one,
      so every other byte is kept.  Only a direct child of the block is ever replaced. */
  lemma {:induction false} RewriteIsFramed(text: string, p: Persistence) returns (i: nat, indent: nat, after: seq<string>)
    requires RewriteSpec(text, p).Some? && UniformNewlines(text)
    ensures text == Join(Split(text), NewlineOf(text)) && RewriteSpec(text, p) == Some(Join(after, NewlineOf(text)))
    ensures Inserted(Split(text), after, i, PersistenceLine(2, p))
            || (Replaced(Split(text), after, i, PersistenceLine(indent, p)) && IsPersistenceLine(Split(text)[i])
                && DirectChild(Shapes(Split(text)), FindOpener(Shapes(Split(text)), 0), i) && IndentOf(Split(text)[i]) == indent)
  {
    JoinSplit(text);
    var lines := Split(text);
    ShapesSound(lines);
    EditsDirectChild(Shapes(lines));
    if PlanEdit(Shapes(lines)).Replace? {
      ShapesAt(lines, PlanEdit(Shapes(lines)).index);
    }
    after := EditedLines(lines, p);
    var e := PlanEdit(Shapes(lines));
    i := e.index;
    indent := if e.Replace? then e.indent else 2;
  }

  // ---------------------------------------------------------------------------------------------
  // Applying the edit twice
  // ---------------------------------------------------------------------------------------------

  /** The rewritten text uses the same line end and splits back into the edited lines. */
  lemma {:induction false} RewriteKeepsNewline(text: string, p: Persistence)
    requires RewriteSpec(text, p).Some?
    ensures NewlineOf(RewriteSpec(text, p).value) == NewlineOf(text)
  {
    var lines, nl := Split(text), NewlineOf(text);
    SplitSeparable(text);
    EditSeparable(lines, nl, p);
    if nl == "\r\n" {
      CrLfHasTwoLines(text);
    }
    NewlineOfJoin(EditedLines(lines, p), nl);
  }

  lemma {:induction false} EditedLinesTwice(lines: seq<string>, p: Persistence)
    requires !PlanEdit(Shapes(lines)).NotFound?
    ensures !PlanEdit(Shapes(EditedLines(lines, p))).NotFound?
    ensures var edited := EditedLines(lines, p);
      if InsertsTwice(Shapes(lines)) then |EditedLines(edited, p)| == |edited| + 1 else EditedLines(edited, p) == edited
  {
    EditTwice(Shapes(lines));
    EditedShapes(lines, p);
  }

  /** Rewriting twice equals rewriting once, except exactly when a line was inserted into a block
      whose children are indented by a single character. */
  lemma {:induction false} RewriteIdempotentIff(text: string, p: Persistence)
    requires RewriteSpec(text, p).Some?
    ensures RewriteSpec(RewriteSpec(text, p).value, p) == RewriteSpec(text, p) <==> !InsertsTwice(Shapes(Split(text)))
  {
    var once := RewriteSpec(text, p).value;
    RewriteIsOneEdit(text, p);
    RewriteKeepsNewline(text, p);
    EditedLinesTwice(Split(text), p);
    RewriteIsOneEdit(once, p);
    if RewriteSpec(once, p) == Some(once) {
      assert EditedLines(Split(once), p) == Split(once);
    }
  }

  lemma {:induction false} CrLfHasTwoLines(text: string)
    requires HasCrLf(text)
    ensures |Split(text)| > 1
  {
    var n := NewlineIndex(text);
    var i :| 0 <= i < |text| - 1 && text[i] == '\r' && text[i + 1] == '\n';
  }

  // ---------------------------------------------------------------------------------------------
  // Appending a block
  // ---------------------------------------------------------------------------------------------

  predicate EndsInLf(text: string) {
    text != "" && text[|text| - 1] == '\n'
  }

  function AppendGovernanceBlock(text: string, p: Persistence): string {
    var newline := NewlineOf(text);
    var suffix := if EndsInLf(text) then "" else newline;
    text + suffix + newline + "governance:" + newline + "  persistence: " + Text(p) + newline
  }

  function AppendedLines(text: string, p: Persistence): seq<string> {
    Split(text) + (if EndsInLf(text) then [] else [""]) + BlockLines(p)
  }

  function BlockLines(p: Persistence): seq<string> {
    ["governance:", PersistenceLine(2, p), ""]
  }

  lemma {:induction false} BlockIsJoin(nl: string, p: Persistence)
    ensures Join(BlockLines(p), nl) == "governance:" + nl + "  persistence: " + Text(p) + nl
  {
    var block, line := BlockLines(p), PersistenceLine(2, p);
    assert line == "  persistence: " + Text(p) by {
      assert Spaces(2) == "  ";
    }
    JoinThree("governance:", line, nl);
  }

  lemma {:induction false} JoinThree(a: string, b: string, nl: string)
    ensures Join([a, b, ""], nl) == a + nl + b + nl
  {
    assert [a, b, ""][1..] == [b, ""] && [b, ""][1..] == [""];
    assert Join([b, ""], nl) == b + nl + "";
    assert Join([a, b, ""], nl) == a + nl + (b + nl + "");
  }

  /** The appended text: the last line is ended if it is not yet, a blank line follows, and then the block. */
  lemma {:induction false} AppendIs(text: string, p: Persistence)
    ensures var nl, ended := NewlineOf(text), text != "" && text[|text| - 1] == '\n';
      && (ended ==> AppendGovernanceBlock(text, p) == text + nl + "governance:" + nl + "  persistence: " + Text(p) + nl)
      && (!ended ==> AppendGovernanceBlock(text, p) == text + nl + nl + "governance:" + nl + "  persistence: " + Text(p) + nl)
  {
    assert text + "" == text;
  }

  lemma {:induction false} AppendIsBlock(text: string, p: Persistence)
    ensures AppendGovernanceBlock(text, p)
            == text + (if EndsInLf(text) then "" else NewlineOf(text)) + NewlineOf(text) + Join(BlockLines(p), NewlineOf(text))
  {
    BlockIsJoin(NewlineOf(text), p);
  }

  lemma {:induction false} JoinBlank(lines: seq<string>, block: seq<string>, nl: string)
    requires lines != [] && block != []
    ensures Join(lines + [""] + block, nl) == Join(lines, nl) + nl + nl + Join(block, nl)
  {
    JoinAppend(lines + [""], block, nl);
    JoinAppend(lines, [""], nl);
    var blank: string := "";
    assert Join(lines, nl) + nl + blank == Join(lines, nl) + nl;
  }

  lemma {:induction false} JoinBlock(text: string, lines: seq<string>, block: seq<string>, nl: string, blank: bool)
    requires lines != [] && block != [] && text == Join(lines, nl)
    ensures Join(lines + (if blank then [] else [""]) + block, nl) == text + (if blank then "" else nl) + nl + Join(block, nl)
  {
    if blank {
      JoinAppend(lines, block, nl);
      assert lines + [] == lines;
      assert text + "" == text;
    } else {
      JoinBlank(lines, block, nl);
    }
  }

  lemma {:induction false} AppendIsJoin(text: string, p: Persistence)
    requires UniformNewlines(text)
    ensures AppendGovernanceBlock(text, p) == Join(AppendedLines(text, p), NewlineOf(text))
  {
    JoinSplit(text);
    AppendIsBlock(text, p);
    JoinBlock(text, Split(text), BlockLines(p), NewlineOf(text), EndsInLf(text));
  }

  /** Uniform line ends, and no carriage return at the end that the appended line feed would turn
      into the first line end of the other kind. */
  ghost predicate KeepsLineEnds(text: string) {
    UniformNewlines(text) && (EndsInCr(text) ==> HasCrLf(text))
  }

  lemma {:induction false} AppendSeparable(text: string, p: Persistence)
    requires EndsInCr(text) ==> HasCrLf(text)
    ensures Separable(AppendedLines(text, p), NewlineOf(text))
  {
    var lines, appended := Split(text), AppendedLines(text, p);
    SplitSeparable(text);
    LastLine(text);
    PersistenceLineKind(2, p);
    forall i | 0 <= i < |appended| ensures '\n' !in appended[i] && (NewlineOf(text) == "\n" ==> !EndsInCr(appended[i])) {
      if i < |lines| {
        assert appended[i] == lines[i];
      } else {
        assert appended[i] in ["", "governance:", PersistenceLine(2, p)];
      }
    }
  }

  lemma {:induction false} LastLine(text: string)
    ensures !EndsInCr(text) ==> !EndsInCr(Split(text)[|Split(text)| - 1])
    decreases |text|
  {
    var n := NewlineIndex(text);
    if n < |text| {
      LastLine(text[n + 1..]);
    }
  }

  lemma {:induction false} BlockShapes(lines: seq<string>, p: Persistence)
    requires |lines| >= 3 && lines[|lines| - 3..] == BlockLines(p)
    ensures var shapes := Shapes(lines);
      shapes[|shapes| - 3].opens && shapes[|shapes| - 2] == KeyShape(2) && shapes[|shapes| - 1].empty
  {
    var n, block := |lines|, lines[|lines| - 3..];
    WrittenShape(2, p);
    OpenerShape();
    ShapesAt(lines, n - 3);
    ShapesAt(lines, n - 2);
    ShapesAt(lines, n - 1);
    assert lines[n - 3] == block[0] && lines[n - 2] == block[1] && lines[n - 1] == block[2];
  }

  lemma {:induction false} OpenerShape()
    ensures ShapeOf("governance:").opens && ShapeOf("").empty
  {
    assert "governance:"[11..] == "";
  }

  lemma {:induction false} AppendedFound(text: string, p: Persistence)
    ensures !PlanEdit(Shapes(AppendedLines(text, p))).NotFound?
  {
    var lines := AppendedLines(text, p);
    assert lines[|lines| - 3..] == BlockLines(p);
    BlockShapes(lines, p);
  }

  /** With line ends kept, rewriting after appending is an edit of the appended lines. */
  lemma {:induction false} AppendKept(text: string, p: Persistence)
    requires KeepsLineEnds(text)
    ensures var lines := AppendedLines(text, p);
      RewriteSpec(AppendGovernanceBlock(text, p), p) == Some(AppendGovernanceBlock(text, p)) <==> EditedLines(lines, p) == lines
  {
    var nl, lines := NewlineOf(text), AppendedLines(text, p);
    AppendIsJoin(text, p);
    AppendSeparable(text, p);
    SplitJoin(lines, nl);
    NewlineOfJoin(lines, nl);
    AppendedFound(text, p);
    EditSeparable(lines, nl, p);
    SplitJoin(EditedLines(lines, p), nl);
  }

  /** Without a block in the text the appended one is found and left alone. */
  lemma {:induction false} NewBlockIsSettled(text: string, p: Persistence)
    requires RewriteSpec(text, p).None?
    ensures var lines := AppendedLines(text, p); EditedLines(lines, p) == lines
  {
    var before, lines := Split(text), AppendedLines(text, p);
    assert lines[|lines| - 3..] == BlockLines(p);
    BlockShapes(lines, p);
    forall i | 0 <= i < |lines| - 3 ensures !Shapes(lines)[i].opens {
      ShapesAt(lines, i);
      if i < |before| {
        ShapesAt(before, i);
      }
    }
    AppendedPlan(Shapes(lines));
    assert lines[|lines| - 2] == lines[|lines| - 3..][1] == PersistenceLine(2, p);
  }

  /** A block that is already there is the one that is edited. */
  lemma {:induction false} OldBlockIsEdited(text: string, p: Persistence)
    requires RewriteSpec(text, p).Some?
    ensures var before, lines := Split(text), AppendedLines(text, p);
      EditedLines(lines, p) == lines <==> EditedLines(before, p) == before
  {
    var before, lines := Split(text), AppendedLines(text, p);
    var blank: seq<string> := if EndsInLf(text) then [] else [""];
    var tail := blank + BlockLines(p);
    assert lines == before + tail;
    TailAtMargin(tail, |blank|, p);
    SamePlan(before, tail, |blank|);
    EditsAgree(before, tail, PlanEdit(Shapes(before)), (indent: nat) => PersistenceLine(indent, p));
  }

  lemma {:induction false} EditsAgree(before: seq<string>, tail: seq<string>, e: Edit, line: nat -> string)
    requires (e.Replace? ==> e.index < |before|) && (e.Insert? ==> e.index <= |before|)
    ensures ApplyEdit(before + tail, e, line) == before + tail <==> ApplyEdit(before, e, line) == before
  {
    match e {
      case NotFound =>
      case Replace(i, indent) =>
        assert (before + tail)[i] == before[i];
        assert (before + tail)[i := line(indent)][i] == before[i := line(indent)][i] == line(indent);
      case Insert(i) =>
        assert |ApplyEdit(before + tail, e, line)| == |before + tail| + 1;
    }
  }

  lemma {:induction false} SamePlan(before: seq<string>, tail: seq<string>, k: nat)
    requires !PlanEdit(Shapes(before)).NotFound? && StartsAtMargin(Shapes(tail), k)
    ensures PlanEdit(Shapes(before + tail)) == PlanEdit(Shapes(before))
  {
    ShapesAppend(before, tail);
    ShapesSound(before + tail);
    PlanExtends(Shapes(before), Shapes(tail), k);
  }

  lemma {:induction false} TailAtMargin(tail: seq<string>, k: nat, p: Persistence)
    requires k <= 1 && |tail| == k + 3 && tail[k..] == BlockLines(p) && (k == 1 ==> tail[0] == "")
    ensures StartsAtMargin(Shapes(tail), k)
  {
    OpenerShape();
    ShapesAt(tail, k);
    assert tail[k] == tail[k..][0];
    GovernanceAtMargin(tail[k]);
    if k == 1 {
      ShapesAt(tail, 0);
    }
    ShapesSound(tail);
  }

  lemma {:induction false} AppendBroken(text: string, p: Persistence)
    requires !KeepsLineEnds(text)
    ensures RewriteSpec(AppendGovernanceBlock(text, p), p) != Some(AppendGovernanceBlock(text, p))
  {
    var after := AppendGovernanceBlock(text, p);
    MixedAfterAppend(text, p);
    SplitSeparable(after);
    EditSeparable(Split(after), NewlineOf(after), p);
    JoinedAllCrLf(EditedLines(Split(after), p));
  }

  lemma {:induction false} MixedAfterAppend(text: string, p: Persistence)
    requires !KeepsLineEnds(text)
    ensures HasCrLf(AppendGovernanceBlock(text, p)) && !AllCrLf(AppendGovernanceBlock(text, p))
  {
    var after := AppendGovernanceBlock(text, p);
    assert text <= after;
    if UniformNewlines(text) {
      assert NewlineOf(text) == "\n" && after[|text|] == '\n' && after[|text| + 1] == '\n';
      assert after[|text| - 1] == '\r' && after[|text| - 1 + 1] == '\n';
    } else {
      var i :| 0 <= i < |text| - 1 && text[i] == '\r' && text[i + 1] == '\n';
      assert after[i] == '\r' && after[i + 1] == '\n';
      var j :| 0 <= j < |text| && text[j] == '\n' && !(j > 0 && text[j - 1] == '\r');
      assert after[j] == '\n' && (j > 0 ==> after[j - 1] == text[j - 1]);
    }
  }

  /** Rewriting right after appending changes nothing, exactly when the line ends are kept and a block
      that the scan already finds in the text would not be changed either. */
  lemma {:induction false} AppendThenRewriteIff(text: string, p: Persistence)
    ensures RewriteSpec(AppendGovernanceBlock(text, p), p) == Some(AppendGovernanceBlock(text, p))
            <==> KeepsLineEnds(text) && (RewriteSpec(text, p).Some? ==> EditedLines(Split(text), p) == Split(text))
  {
    if !KeepsLineEnds(text) {
      AppendBroken(text, p);
    } else {
      AppendKept(text, p);
      if RewriteSpec(text, p).None? {
        NewBlockIsSettled(text, p);
      } else {
        OldBlockIsEdited(text, p);
      }
    }
  }

  lemma {:induction false} AppendedPlan(lines: seq<Shape>)
    requires |lines| >= 3 && lines[|lines| - 2] == KeyShape(2)
    requires lines[|lines| - 3].opens && lines[|lines| - 1].empty
    requires forall i :: 0 <= i < |lines| - 3 ==> !lines[i].opens
    ensures PlanEdit(lines) == Replace(|lines| - 2, 2)
  {
    var g := |lines| - 3;
    OpenerIs(lines, 0, g);
    BlockEndIs(lines, g + 1, |lines|);
    ChildIndentIs(lines, g + 1, |lines|, 2, g + 1);
    KeyIs(lines, 2, g + 1, |lines|, g + 1);
  }
}
