/** Locating a block and one of its direct children by the shapes of the lines: which line opens
    the block, which ones are empty, how far they are indented, and which ones carry the key. */
module BlockEdit {
  import opened Seqs

  datatype Shape = Shape(opens: bool, key: bool, empty: bool, indent: nat)

  /** A line that opens the block stands at the margin; lines with the opener or the key are not empty. */
  ghost predicate Sound(lines: seq<Shape>) {
    forall i :: 0 <= i < |lines| ==>
      (lines[i].opens ==> lines[i].indent == 0 && !lines[i].empty) && (lines[i].key ==> !lines[i].empty)
  }

  function FindOpener(lines: seq<Shape>, from: nat): (r: nat)
    requires from <= |lines|
    ensures from <= r <= |lines| && (r < |lines| ==> lines[r].opens)
    ensures forall i :: from <= i < r ==> !lines[i].opens
    decreases |lines| - from
  {
    if from == |lines| || lines[from].opens then from else FindOpener(lines, from + 1)
  }

  /** The first non-empty line at or after `from` that is indented by at most `indent`. */
  function BlockEnd(lines: seq<Shape>, indent: nat, from: nat): (r: nat)
    requires from <= |lines|
    ensures from <= r <= |lines| && (r < |lines| ==> !lines[r].empty && lines[r].indent <= indent)
    ensures forall i :: from <= i < r ==> lines[i].empty || lines[i].indent > indent
    decreases |lines| - from
  {
    if from == |lines| || (!lines[from].empty && lines[from].indent <= indent) then from
    else BlockEnd(lines, indent, from + 1)
  }

  /** The smallest indent of a non-empty line in the range, if there is one. */
  function ChildIndent(lines: seq<Shape>, from: nat, end: nat): (r: Option<nat>)
    requires from <= end <= |lines|
    ensures r.None? <==> forall i :: from <= i < end ==> lines[i].empty
    ensures r.Some? ==> forall i :: from <= i < end ==> lines[i].empty || r.value <= lines[i].indent
    ensures r.Some? ==> exists i :: from <= i < end && !lines[i].empty && lines[i].indent == r.value
    decreases end - from
  {
    if from == end then None
    else
      var before, last := ChildIndent(lines, from, end - 1), lines[end - 1];
      if !last.empty && (before.None? || last.indent < before.value) then Some(last.indent) else before
  }

  /** The first line with the key at exactly that indent. */
  function FindKey(lines: seq<Shape>, indent: nat, from: nat, end: nat): (r: nat)
    requires from <= end <= |lines|
    ensures from <= r <= end && (r < end ==> lines[r].indent == indent && lines[r].key)
    ensures forall i :: from <= i < r ==> !(lines[i].indent == indent && lines[i].key)
    decreases end - from
  {
    if from == end || (lines[from].indent == indent && lines[from].key) then from
    else FindKey(lines, indent, from + 1, end)
  }

  datatype Edit = NotFound | Replace(index: nat, indent: nat) | Insert(index: nat)

  function PlanEdit(lines: seq<Shape>): (r: Edit)
    ensures r.Replace? ==> 0 < r.index < |lines| && lines[r.index].key && lines[r.index].indent == r.indent
    ensures r.Insert? ==> 0 < r.index <= |lines| && lines[r.index - 1].opens
    ensures r.NotFound? <==> forall i :: 0 <= i < |lines| ==> !lines[i].opens
  {
    var g := FindOpener(lines, 0);
    if g == |lines| then NotFound
    else
      var end := BlockEnd(lines, 0, g + 1);
      var child := ChildIndent(lines, g + 1, end);
      if child.Some? && FindKey(lines, child.value, g + 1, end) < end
      then Replace(FindKey(lines, child.value, g + 1, end), child.value)
      else Insert(g + 1)
  }

  function KeyShape(indent: nat): Shape {
    Shape(false, true, false, indent)
  }

  /** Replaces the located line, or inserts a line indented by two right after the opener. */
  function ApplyEdit<T>(lines: seq<T>, e: Edit, line: nat -> T): (r: seq<T>)
    requires e.Replace? ==> e.index < |lines|
    requires e.Insert? ==> e.index <= |lines|
    ensures |r| == |lines| + if e.Insert? then 1 else 0
  {
    match e
    case NotFound => lines
    case Replace(i, indent) => lines[i := line(indent)]
    case Insert(i) => lines[..i] + [line(2)] + lines[i..]
  }

  // ---------------------------------------------------------------------------------------------
  // Where an edit lands
  // ---------------------------------------------------------------------------------------------

  /** `index` is a direct child of the block opened at `g`: inside the block, indented, and no line
      of the block is indented less. */
  ghost predicate DirectChild(lines: seq<Shape>, g: nat, index: nat) {
    && g < index < |lines| && lines[g].opens
    && 0 < lines[index].indent
    && var end := BlockEnd(lines, 0, g + 1);
       index < end && forall i :: g < i < end ==> lines[i].empty || lines[index].indent <= lines[i].indent
  }

  /** The replaced line is a direct child of the first block, and the first such child with the key;
      an insertion happens only when no direct child has the key. */
  lemma {:induction false} EditsDirectChild(lines: seq<Shape>)
    requires Sound(lines) && !PlanEdit(lines).NotFound?
    ensures var g := FindOpener(lines, 0);
      match PlanEdit(lines)
      case Replace(i, _) => DirectChild(lines, g, i) && forall j :: g < j < i && lines[j].key ==> !DirectChild(lines, g, j)
      case Insert(i) => i == g + 1 && forall j :: 0 <= j < |lines| && lines[j].key ==> !DirectChild(lines, g, j)
  {
    var g := FindOpener(lines, 0);
    var end := BlockEnd(lines, 0, g + 1);
    var child := ChildIndent(lines, g + 1, end);
    forall j | 0 <= j < |lines| && lines[j].key && DirectChild(lines, g, j) ensures child == Some(lines[j].indent) {
    }
  }

  // ---------------------------------------------------------------------------------------------
  // Editing twice
  // ---------------------------------------------------------------------------------------------

  lemma {:induction false} OpenerIs(lines: seq<Shape>, from: nat, g: nat)
    requires from <= g < |lines| && lines[g].opens && forall i :: from <= i < g ==> !lines[i].opens
    ensures FindOpener(lines, from) == g
    decreases g - from
  {
    if from < g {
      OpenerIs(lines, from + 1, g);
    }
  }

  lemma {:induction false} BlockEndIs(lines: seq<Shape>, from: nat, end: nat)
    requires from <= end <= |lines|
    requires end < |lines| ==> !lines[end].empty && lines[end].indent == 0
    requires forall i :: from <= i < end ==> lines[i].empty || lines[i].indent > 0
    ensures BlockEnd(lines, 0, from) == end
    decreases end - from
  {
    if from < end {
      BlockEndIs(lines, from + 1, end);
    }
  }

  lemma {:induction false} ChildIndentIs(lines: seq<Shape>, from: nat, end: nat, c: nat, at: nat)
    requires from <= at < end <= |lines| && !lines[at].empty && lines[at].indent == c
    requires forall i :: from <= i < end ==> lines[i].empty || lines[i].indent >= c
    ensures ChildIndent(lines, from, end) == Some(c)
  {
  }

  lemma {:induction false} KeyIs(lines: seq<Shape>, indent: nat, from: nat, end: nat, at: nat)
    requires from <= at <= end <= |lines|
    requires at < end ==> lines[at].indent == indent && lines[at].key
    requires forall i :: from <= i < at ==> !(lines[i].indent == indent && lines[i].key)
    ensures FindKey(lines, indent, from, end) == at
    decreases at - from
  {
    if from < at {
      KeyIs(lines, indent, from + 1, end, at);
    }
  }

  /** After a replacement the editor finds the very line it wrote. */
  lemma {:induction false} ReplaceAgain(lines: seq<Shape>)
    requires PlanEdit(lines).Replace?
    ensures PlanEdit(ApplyEdit(lines, PlanEdit(lines), KeyShape)) == PlanEdit(lines)
  {
    var g := FindOpener(lines, 0);
    var end := BlockEnd(lines, 0, g + 1);
    var e := PlanEdit(lines);
    var edited := ApplyEdit(lines, e, KeyShape);
    var at :| g + 1 <= at < end && !lines[at].empty && lines[at].indent == e.indent;
    assert e.indent > 0;
    OpenerIs(edited, 0, g);
    BlockEndIs(edited, g + 1, end);
    PlanIsReplace(edited, g, end, e.index, e.indent);
  }

  lemma {:induction false} PlanIsReplace(lines: seq<Shape>, g: nat, end: nat, at: nat, indent: nat)
    requires g < at < end <= |lines| && FindOpener(lines, 0) == g && BlockEnd(lines, 0, g + 1) == end
    requires !lines[at].empty && lines[at].indent == indent && lines[at].key
    requires forall i :: g < i < end ==> lines[i].empty || lines[i].indent >= indent
    requires forall i :: g < i < at ==> !(lines[i].indent == indent && lines[i].key)
    ensures PlanEdit(lines) == Replace(at, indent)
  {
    ChildIndentIs(lines, g + 1, end, indent, at);
    KeyIs(lines, indent, g + 1, end, at);
  }

  /** An insertion next to children indented by one is not found again. */
  ghost predicate InsertsTwice(lines: seq<Shape>) {
    var g := FindOpener(lines, 0);
    PlanEdit(lines).Insert? && ChildIndent(lines, g + 1, BlockEnd(lines, 0, g + 1)) == Some(1)
  }

  /** The lines with one more behind the opener, which has the key at an indent of two. */
  ghost predicate IsInserted(lines: seq<Shape>, edited: seq<Shape>, g: nat) {
    && g < |lines| && |edited| == |lines| + 1
    && (forall i :: 0 <= i <= g ==> edited[i] == lines[i])
    && edited[g + 1] == KeyShape(2)
    && forall i :: g + 1 < i < |edited| ==> edited[i] == lines[i - 1]
  }

  lemma {:induction false} InsertedBlock(lines: seq<Shape>, edited: seq<Shape>, g: nat, end: nat)
    requires IsInserted(lines, edited, g)
    requires g == FindOpener(lines, 0) && end == BlockEnd(lines, 0, g + 1)
    ensures FindOpener(edited, 0) == g && BlockEnd(edited, 0, g + 1) == end + 1
  {
    assert FindOpener(edited, 0) == g by {
      OpenerIs(edited, 0, g);
    }
    assert BlockEnd(edited, 0, g + 1) == end + 1 by {
      BlockEndIs(edited, g + 1, end + 1);
    }
  }

  lemma {:induction false} InsertAgain(lines: seq<Shape>)
    requires PlanEdit(lines).Insert?
    ensures PlanEdit(ApplyEdit(lines, PlanEdit(lines), KeyShape))
            == if InsertsTwice(lines) then PlanEdit(lines) else Replace(PlanEdit(lines).index, 2)
  {
    var g := FindOpener(lines, 0);
    var end := BlockEnd(lines, 0, g + 1);
    var edited := ApplyEdit(lines, PlanEdit(lines), KeyShape);
    assert PlanEdit(lines) == Insert(g + 1) && g < |lines|;
    assert IsInserted(lines, edited, g) by {
      InsertedAt(lines, g);
    }
    NothingWithKey(lines, g, end);
    PlanOfInserted(lines, edited, g, end);
  }

  lemma {:induction false} NothingWithKey(lines: seq<Shape>, g: nat, end: nat)
    requires g < |lines| && g == FindOpener(lines, 0) && end == BlockEnd(lines, 0, g + 1) && PlanEdit(lines) == Insert(g + 1)
    ensures var child := ChildIndent(lines, g + 1, end);
      child.Some? ==> FindKey(lines, child.value, g + 1, end) == end
  {
  }

  lemma {:induction false} PlanOfInserted(lines: seq<Shape>, edited: seq<Shape>, g: nat, end: nat)
    requires IsInserted(lines, edited, g) && g == FindOpener(lines, 0) && end == BlockEnd(lines, 0, g + 1)
    requires ChildIndent(lines, g + 1, end) == Some(1) ==> FindKey(lines, 1, g + 1, end) == end
    ensures PlanEdit(edited) == if ChildIndent(lines, g + 1, end) == Some(1) then Insert(g + 1) else Replace(g + 1, 2)
  {
    InsertedBlock(lines, edited, g, end);
    if ChildIndent(lines, g + 1, end) == Some(1) {
      InsertNarrow(lines, edited, g, end);
    } else {
      InsertWide(lines, edited, g, end);
    }
  }

  lemma {:induction false} InsertNarrow(lines: seq<Shape>, edited: seq<Shape>, g: nat, end: nat)
    requires g < end <= |lines| && |edited| == |lines| + 1
    requires ChildIndent(lines, g + 1, end) == Some(1) && FindKey(lines, 1, g + 1, end) == end
    requires forall i :: g < i < end ==> lines[i].empty || lines[i].indent > 0
    requires FindOpener(edited, 0) == g && BlockEnd(edited, 0, g + 1) == end + 1
    requires IsInserted(lines, edited, g)
    ensures PlanEdit(edited) == Insert(g + 1)
  {
    assert ChildIndent(edited, g + 1, end + 1) == Some(1) && FindKey(edited, 1, g + 1, end + 1) == end + 1 by {
      NarrowChildren(lines, edited, g, end);
    }
    PlanIs(edited, g, end + 1, 1);
  }

  lemma {:induction false} InsertWide(lines: seq<Shape>, edited: seq<Shape>, g: nat, end: nat)
    requires g < end <= |lines| && |edited| == |lines| + 1
    requires ChildIndent(lines, g + 1, end) != Some(1)
    requires forall i :: g < i < end ==> lines[i].empty || lines[i].indent > 0
    requires FindOpener(edited, 0) == g && BlockEnd(edited, 0, g + 1) == end + 1
    requires IsInserted(lines, edited, g)
    ensures PlanEdit(edited) == Replace(g + 1, 2)
  {
    assert ChildIndent(edited, g + 1, end + 1) == Some(2) && FindKey(edited, 2, g + 1, end + 1) == g + 1 by {
      WideChildren(lines, edited, g, end);
    }
    PlanIs(edited, g, end + 1, 2);
  }

  lemma {:induction false} PlanIs(lines: seq<Shape>, g: nat, end: nat, indent: nat)
    requires g < |lines| && FindOpener(lines, 0) == g && BlockEnd(lines, 0, g + 1) == end
    requires ChildIndent(lines, g + 1, end) == Some(indent)
    ensures PlanEdit(lines) == if FindKey(lines, indent, g + 1, end) < end then Replace(FindKey(lines, indent, g + 1, end), indent)
                               else Insert(g + 1)
  {
  }

  lemma {:induction false} InsertedAt(lines: seq<Shape>, g: nat)
    requires g < |lines|
    ensures IsInserted(lines, ApplyEdit(lines, Insert(g + 1), KeyShape), g)
  {
  }

  lemma {:induction false} WideChildren(lines: seq<Shape>, edited: seq<Shape>, g: nat, end: nat)
    requires g < end <= |lines| && |edited| == |lines| + 1
    requires ChildIndent(lines, g + 1, end) != Some(1)
    requires forall i :: g < i < end ==> lines[i].empty || lines[i].indent > 0
    requires IsInserted(lines, edited, g)
    ensures ChildIndent(edited, g + 1, end + 1) == Some(2) && FindKey(edited, 2, g + 1, end + 1) == g + 1
  {
    WideIndent(lines, edited, g, end);
    KeyIs(edited, 2, g + 1, end + 1, g + 1);
  }

  lemma {:induction false} WideIndent(lines: seq<Shape>, edited: seq<Shape>, g: nat, end: nat)
    requires IsInserted(lines, edited, g) && g < end <= |lines| && ChildIndent(lines, g + 1, end) != Some(1)
    requires forall i :: g < i < end ==> lines[i].empty || lines[i].indent > 0
    ensures ChildIndent(edited, g + 1, end + 1) == Some(2)
  {
    forall i | g + 1 <= i < end + 1 ensures edited[i].empty || edited[i].indent >= 2 {
      if i > g + 1 {
        NotNarrow(lines, g, end, i - 1);
      }
    }
    ChildIndentIs(edited, g + 1, end + 1, 2, g + 1);
  }

  lemma {:induction false} NotNarrow(lines: seq<Shape>, g: nat, end: nat, i: nat)
    requires g < i < end <= |lines| && ChildIndent(lines, g + 1, end) != Some(1)
    requires forall j :: g < j < end ==> lines[j].empty || lines[j].indent > 0
    ensures lines[i].empty || lines[i].indent >= 2
  {
  }

  lemma {:induction false} NarrowChildren(lines: seq<Shape>, edited: seq<Shape>, g: nat, end: nat)
    requires g < end <= |lines| && |edited| == |lines| + 1
    requires ChildIndent(lines, g + 1, end) == Some(1) && FindKey(lines, 1, g + 1, end) == end
    requires forall i :: g < i < end ==> lines[i].empty || lines[i].indent > 0
    requires IsInserted(lines, edited, g)
    ensures ChildIndent(edited, g + 1, end + 1) == Some(1) && FindKey(edited, 1, g + 1, end + 1) == end + 1
  {
    NarrowIndent(lines, edited, g, end);
    NoNarrowKey(lines, edited, g, end);
  }

  lemma {:induction false} NarrowIndent(lines: seq<Shape>, edited: seq<Shape>, g: nat, end: nat)
    requires IsInserted(lines, edited, g) && g < end <= |lines| && ChildIndent(lines, g + 1, end) == Some(1)
    requires forall i :: g < i < end ==> lines[i].empty || lines[i].indent > 0
    ensures ChildIndent(edited, g + 1, end + 1) == Some(1)
  {
    var at :| g + 1 <= at < end && !lines[at].empty && lines[at].indent == 1;
    assert edited[at + 1] == lines[at];
    ChildIndentIs(edited, g + 1, end + 1, 1, at + 1);
  }

  lemma {:induction false} NoNarrowKey(lines: seq<Shape>, edited: seq<Shape>, g: nat, end: nat)
    requires IsInserted(lines, edited, g) && g < end <= |lines| && FindKey(lines, 1, g + 1, end) == end
    ensures FindKey(edited, 1, g + 1, end + 1) == end + 1
  {
    KeyIs(edited, 1, g + 1, end + 1, end + 1);
  }

  /** Planning after an edit repeats the edit in place, except exactly when it inserts twice. */
  lemma {:induction false} EditTwice(lines: seq<Shape>)
    requires !PlanEdit(lines).NotFound?
    ensures var edited := ApplyEdit(lines, PlanEdit(lines), KeyShape);
      if InsertsTwice(lines) then PlanEdit(edited) == PlanEdit(lines) && PlanEdit(edited).Insert?
      else PlanEdit(edited) == match PlanEdit(lines) case Insert(i) => Replace(i, 2) case e => e
  {
    if PlanEdit(lines).Replace? {
      ReplaceAgain(lines);
    } else {
      InsertAgain(lines);
    }
  }

  // ---------------------------------------------------------------------------------------------
  // Appending another block
  // ---------------------------------------------------------------------------------------------

  /** Empty lines followed by one at the margin. */
  ghost predicate StartsAtMargin(b: seq<Shape>, k: nat) {
    k < |b| && !b[k].empty && b[k].indent == 0 && forall i :: 0 <= i < k ==> b[i].empty
  }

  /** A block that is already there is edited the same way when another one is appended. */
  lemma {:induction false} PlanExtends(a: seq<Shape>, b: seq<Shape>, k: nat)
    requires Sound(a + b) && !PlanEdit(a).NotFound? && StartsAtMargin(b, k)
    ensures PlanEdit(a + b) == PlanEdit(a)
  {
    var lines, g := a + b, FindOpener(a, 0);
    var end := BlockEnd(a, 0, g + 1);
    var end' := if end < |a| then end else |a| + k;
    BlockExtends(a, b, k, g, end, end');
    ChildExtends(a, lines, g + 1, end, end');
    var child := ChildIndent(a, g + 1, end);
    if child.Some? {
      KeyExtends(a, lines, child.value, g + 1, end, end');
    }
  }

  lemma {:induction false} BlockExtends(a: seq<Shape>, b: seq<Shape>, k: nat, g: nat, end: nat, end': nat)
    requires StartsAtMargin(b, k)
    requires g == FindOpener(a, 0) < |a| && end == BlockEnd(a, 0, g + 1) && end' == if end < |a| then end else |a| + k
    ensures forall i :: 0 <= i < |a| ==> (a + b)[i] == a[i]
    ensures end <= end' <= |a + b| && forall i :: end <= i < end' ==> (a + b)[i].empty
    ensures FindOpener(a + b, 0) == g && BlockEnd(a + b, 0, g + 1) == end'
  {
    var lines := a + b;
    assert forall i :: |a| <= i < |lines| ==> lines[i] == b[i - |a|];
    OpenerIs(lines, 0, g);
    BlockEndIs(lines, g + 1, end');
  }

  lemma {:induction false} ChildExtends(a: seq<Shape>, lines: seq<Shape>, from: nat, end: nat, end': nat)
    requires from <= end <= |a| <= |lines| && end <= end' <= |lines|
    requires (forall i :: 0 <= i < |a| ==> lines[i] == a[i]) && forall i :: end <= i < end' ==> lines[i].empty
    ensures ChildIndent(lines, from, end') == ChildIndent(a, from, end)
  {
    var child := ChildIndent(a, from, end);
    if child.Some? {
      var at :| from <= at < end && !a[at].empty && a[at].indent == child.value;
      ChildIndentIs(lines, from, end', child.value, at);
    }
  }

  lemma {:induction false} KeyExtends(a: seq<Shape>, lines: seq<Shape>, indent: nat, from: nat, end: nat, end': nat)
    requires Sound(lines) && from <= end <= |a| <= |lines| && end <= end' <= |lines|
    requires (forall i :: 0 <= i < |a| ==> lines[i] == a[i]) && forall i :: end <= i < end' ==> lines[i].empty
    ensures FindKey(a, indent, from, end) < end ==> FindKey(lines, indent, from, end') == FindKey(a, indent, from, end)
    ensures FindKey(a, indent, from, end) == end ==> FindKey(lines, indent, from, end') == end'
  {
    var at := FindKey(a, indent, from, end);
    KeyIs(lines, indent, from, end', if at < end then at else end');
  }
}
