/** Connectivity over a finite set of undirected links. */
module Components {

  type File = string
  type Links = set<(File, File)>

  ghost predicate Adjacent(links: Links, a: File, b: File) {
    (a, b) in links || (b, a) in links
  }

  ghost predicate IsPath(links: Links, p: seq<File>) {
    p != [] && forall i :: 0 <= i < |p| - 1 ==> Adjacent(links, p[i], p[i + 1])
  }

  ghost predicate Connected(links: Links, a: File, b: File) {
    exists p :: IsPath(links, p) && p[0] == a && p[|p| - 1] == b
  }

  lemma ConnectedSelf(links: Links, a: File)
    ensures Connected(links, a, a)
  {
    assert IsPath(links, [a]);
  }

  lemma ConnectedStep(links: Links, a: File, b: File)
    requires Adjacent(links, a, b)
    ensures Connected(links, a, b)
  {
    var p := [a, b];
    assert IsPath(links, p);
    assert p[0] == a && p[|p| - 1] == b;
  }

  lemma ConnectedSymmetric(links: Links, a: File, b: File)
    requires Connected(links, a, b)
    ensures Connected(links, b, a)
  {
    var p :| IsPath(links, p) && p[0] == a && p[|p| - 1] == b;
    var q := seq(|p|, i requires 0 <= i < |p| => p[|p| - 1 - i]);
    forall i | 0 <= i < |q| - 1 ensures Adjacent(links, q[i], q[i + 1]) {
      assert Adjacent(links, p[|p| - 2 - i], p[|p| - 2 - i + 1]);
    }
    assert IsPath(links, q) && q[0] == b && q[|q| - 1] == a;
  }

  lemma ConnectedTransitive(links: Links, a: File, b: File, c: File)
    requires Connected(links, a, b) && Connected(links, b, c)
    ensures Connected(links, a, c)
  {
    var p :| IsPath(links, p) && p[0] == a && p[|p| - 1] == b;
    var q :| IsPath(links, q) && q[0] == b && q[|q| - 1] == c;
    var r := p + q[1..];
    forall i | 0 <= i < |r| - 1 ensures Adjacent(links, r[i], r[i + 1]) {
      if i < |p| - 1 {
        assert Adjacent(links, p[i], p[i + 1]);
      } else {
        var j := i - (|p| - 1);
        assert Adjacent(links, q[j], q[j + 1]);
      }
    }
    assert IsPath(links, r) && r[0] == a && r[|r| - 1] == c;
  }

  lemma ConnectedGrows(links: Links, more: Links, a: File, b: File)
    requires Connected(links, a, b) && links <= more
    ensures Connected(more, a, b)
  {
    var p :| IsPath(links, p) && p[0] == a && p[|p| - 1] == b;
    assert IsPath(more, p);
  }

  /** A labelling that agrees along links agrees along paths. */
  lemma {:induction false} LabelAlongPath(links: Links, mark: map<File, File>, p: seq<File>)
    requires IsPath(links, p)
    requires forall a, b :: Adjacent(links, a, b) ==> a in mark && b in mark && mark[a] == mark[b]
    requires p[0] in mark
    ensures p[|p| - 1] in mark && mark[p[|p| - 1]] == mark[p[0]]
  {
    if |p| > 1 {
      assert Adjacent(links, p[0], p[0 + 1]);
      forall i | 0 <= i < |p[1..]| - 1 ensures Adjacent(links, p[1..][i], p[1..][i + 1]) {
        assert Adjacent(links, p[i + 1], p[i + 1 + 1]);
      }
      LabelAlongPath(links, mark, p[1..]);
    }
  }

  /** A path between different ends crosses a link between different files, both connected to its start. */
  lemma {:induction false} CrossingLink(links: Links, p: seq<File>) returns (a: File, b: File)
    requires IsPath(links, p) && p[0] != p[|p| - 1]
    ensures Adjacent(links, a, b) && a != b && Connected(links, p[0], a) && Connected(links, p[0], b)
  {
    assert Adjacent(links, p[0], p[0 + 1]);
    if p[0] != p[1] {
      a, b := p[0], p[1];
      ConnectedSelf(links, a);
      ConnectedStep(links, a, b);
    } else {
      forall i | 0 <= i < |p[1..]| - 1 ensures Adjacent(links, p[1..][i], p[1..][i + 1]) {
        assert Adjacent(links, p[i + 1], p[i + 1 + 1]);
      }
      a, b := CrossingLink(links, p[1..]);
    }
  }
}
