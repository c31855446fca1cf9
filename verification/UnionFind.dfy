/** The disjoint-set forest behind the similarity groups: `find` with path compression, `union`
    without ranks. */
module UnionFind {
  import opened Components

  /** A file without a stored parent is its own parent. */
  function ParentOf(parent: map<File, File>, x: File): File {
    if x in parent then parent[x] else x
  }

  ghost predicate IsNode(parent: map<File, File>, files: set<File>, root: map<File, File>, height: map<File, nat>, x: File)
    requires root.Keys == files && height.Keys == files && x in files
  {
    var up := ParentOf(parent, x);
    && up in files && root[x] in files
    && root[up] == root[x] && root[root[x]] == root[x]
    && (up == x <==> root[x] == x)
    && (up != x ==> height[up] < height[x])
    && (root[x] != x ==> height[root[x]] < height[x])
  }

  /** `parent` is a forest over `files`; `root` names the root of every file and `height`
      strictly decreases towards it. */
  ghost predicate IsForest(parent: map<File, File>, files: set<File>, root: map<File, File>, height: map<File, nat>) {
    && root.Keys == files && height.Keys == files && parent.Keys <= files
    && forall x {:trigger IsNode(parent, files, root, height, x)} :: x in files ==> IsNode(parent, files, root, height, x)
  }

  ghost predicate Rooted(links: Links, root: map<File, File>, x: File)
    requires x in root
  {
    Connected(links, x, root[x])
  }

  /** Links stay inside one tree, and every file is linked to its root. */
  ghost predicate RootsAreComponents(files: set<File>, root: map<File, File>, links: Links)
    requires root.Keys == files
  {
    && (forall a, b :: Adjacent(links, a, b) ==> a in files && b in files && root[a] == root[b])
    && (forall x {:trigger Rooted(links, root, x)} :: x in files ==> Rooted(links, root, x))
  }

  lemma {:induction false} SameRootIffConnected(files: set<File>, root: map<File, File>, links: Links, a: File, b: File)
    requires root.Keys == files && RootsAreComponents(files, root, links)
    requires a in files && b in files
    ensures root[a] == root[b] <==> Connected(links, a, b)
  {
    if root[a] == root[b] {
      assert Rooted(links, root, a) && Rooted(links, root, b);
      ConnectedSymmetric(links, b, root[b]);
      ConnectedTransitive(links, a, root[a], b);
    }
    if Connected(links, a, b) {
      var p :| IsPath(links, p) && p[0] == a && p[|p| - 1] == b;
      LabelAlongPath(links, root, p);
    }
  }

  /** The roots are a function of the parent map alone. */
  lemma {:induction false} RootIsDetermined(parent: map<File, File>, files: set<File>, r1: map<File, File>, h1: map<File, nat>,
                                            r2: map<File, File>, h2: map<File, nat>, x: File)
    requires IsForest(parent, files, r1, h1) && IsForest(parent, files, r2, h2) && x in files
    ensures r1[x] == r2[x]
    decreases h1[x]
  {
    assert IsNode(parent, files, r1, h1, x) && IsNode(parent, files, r2, h2, x);
    if ParentOf(parent, x) != x {
      RootIsDetermined(parent, files, r1, h1, r2, h2, ParentOf(parent, x));
    }
  }

  function Merge(root: map<File, File>, from: File, to: File): map<File, File> {
    map x | x in root :: if root[x] == from then to else root[x]
  }

  function Lift(root: map<File, File>, height: map<File, nat>, from: File, rise: nat): map<File, nat>
    requires root.Keys == height.Keys
  {
    map x | x in height :: if root[x] == from then height[x] + rise else height[x]
  }

  lemma {:induction false} LinkedForest(parent: map<File, File>, files: set<File>, root: map<File, File>, height: map<File, nat>,
                                        from: File, to: File)
    requires IsForest(parent, files, root, height)
    requires from in files && to in files && root[from] == from && root[to] == to && from != to
    ensures IsForest(parent[from := to], files, Merge(root, from, to), Lift(root, height, from, height[to] + 1))
  {
    var linked, merged, lifted := parent[from := to], Merge(root, from, to), Lift(root, height, from, height[to] + 1);
    forall x | x in files ensures IsNode(linked, files, merged, lifted, x) {
      assert IsNode(parent, files, root, height, x);
    }
  }

  /** Pointing a file straight at its root keeps the forest. */
  lemma {:induction false} CompressedForest(parent: map<File, File>, files: set<File>, root: map<File, File>, height: map<File, nat>,
                                            file: File)
    requires IsForest(parent, files, root, height)
    requires file in files && root[file] != file
    ensures root[file] in files && IsForest(parent[file := root[file]], files, root, height)
  {
    assert IsNode(parent, files, root, height, file);
    forall x | x in files ensures IsNode(parent[file := root[file]], files, root, height, x) {
      assert IsNode(parent, files, root, height, x);
    }
  }

  lemma {:induction false} MergedComponents(files: set<File>, root: map<File, File>, links: Links, left: File, right: File)
    requires root.Keys == files && RootsAreComponents(files, root, links)
    requires left in files && right in files
    requires root[left] in files && root[right] in files
    ensures RootsAreComponents(files, Merge(root, root[left], root[right]), links + {(left, right)})
  {
    var more := links + {(left, right)};
    var merged := Merge(root, root[left], root[right]);
    forall a, b | Adjacent(more, a, b) ensures a in files && b in files && merged[a] == merged[b] {
      assert Adjacent(links, a, b) || (a == left && b == right) || (a == right && b == left);
    }
    assert Rooted(links, root, left) && Rooted(links, root, right);
    forall x | x in files ensures Rooted(more, merged, x) {
      assert Rooted(links, root, x);
      ConnectedGrows(links, more, x, root[x]);
      if root[x] == root[left] {
        ConnectedGrows(links, more, left, root[left]);
        ConnectedSymmetric(more, left, root[left]);
        ConnectedTransitive(more, x, root[left], left);
        ConnectedStep(more, left, right);
        ConnectedTransitive(more, x, left, right);
        ConnectedGrows(links, more, right, root[right]);
        ConnectedTransitive(more, x, right, root[right]);
      }
    }
  }

  /** The parent map is a forest whose roots are the components of the links. */
  ghost predicate IsPartition(parent: map<File, File>, files: set<File>, root: map<File, File>, height: map<File, nat>, links: Links) {
    IsForest(parent, files, root, height) && RootsAreComponents(files, root, links)
  }

  /** Linking the two roots, if they differ, adds one link to the components. */
  lemma {:induction false} UnitedIsValid(parent: map<File, File>, files: set<File>, root: map<File, File>, height: map<File, nat>,
                                         links: Links, left: File, right: File) returns (merged: map<File, File>, lifted: map<File, nat>)
    requires IsPartition(parent, files, root, height, links)
    requires left in files && right in files
    ensures left in root && right in root
    ensures IsPartition(if root[left] == root[right] then parent else parent[root[left] := root[right]], files, merged, lifted,
                        links + {(left, right)})
  {
    assert IsNode(parent, files, root, height, left) && IsNode(parent, files, root, height, right);
    var a, b := root[left], root[right];
    MergedComponents(files, root, links, left, right);
    merged := Merge(root, a, b);
    if a != b {
      LinkedForest(parent, files, root, height, a, b);
      lifted := Lift(root, height, a, height[b] + 1);
    } else {
      assert Merge(root, a, b) == root;
      lifted := height;
    }
  }

  class DisjointFiles {
    var parent: map<File, File>
    ghost const files: set<File>
    ghost var root: map<File, File>
    ghost var height: map<File, nat>
    ghost var links: Links

    ghost predicate Valid()
      reads this
    {
      IsPartition(parent, files, root, height, links)
    }

    constructor (ghost files: set<File>)
      ensures Valid() && links == {} && this.files == files
    {
      parent := map[];
      this.files := files;
      root := map x | x in files :: x;
      height := map x | x in files :: 0;
      links := {};
      new;
      forall x | x in files ensures IsNode(parent, files, root, height, x) {
      }
      forall x | x in files ensures Rooted(links, root, x) {
        ConnectedSelf(links, x);
      }
    }

    /** The root of `file`; compression re-parents the path and changes no root. */
    method Find(file: File) returns (r: File)
      requires Valid() && file in files
      modifies this
      ensures Valid() && root == old(root) && height == old(height) && links == old(links)
      ensures r == root[file]
      decreases height[file]
    {
      var up := ParentOf(parent, file);
      assert IsNode(parent, files, root, height, file);
      if up != file {
        r := Find(up);
        CompressedForest(parent, files, root, height, file);
        parent := parent[file := r];
      } else {
        r := file;
      }
    }

    method Union(left: File, right: File)
      requires Valid() && left in files && right in files
      modifies this
      ensures Valid() && links == old(links) + {(left, right)}
    {
      var leftRoot := Find(left);
      var rightRoot := Find(right);
      ghost var merged, lifted := UnitedIsValid(parent, files, root, height, links, left, right);
      if leftRoot != rightRoot {
        parent := parent[leftRoot := rightRoot];
      }
      root, height, links := merged, lifted, links + {(left, right)};
    }
  }
}
