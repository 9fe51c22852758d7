/** `VIsoFile::build`, first half: the breadth-first directory list and the file sectors. */
module DirList {
  import opened Bytes
  import opened DirRecords
  import opened FolderTree

  // ---------------------------------------------------------------- the list and its links

  /** Children of directory `e` listed so far, when directory `d` is half done with `i` of its children. */
  function Done(ds: seq<Dir>, d: nat, i: nat, e: nat): nat
    requires e < |ds|
  {
    if e < d then |ds[e].subdirs| else if e == d then i else 0
  }

  ghost predicate NodeLinked(n: Node, ds: seq<Dir>, d: nat, i: nat, k: nat)
    requires k < |ds|
  {
    && n.idx == k && n.dir == ds[k]
    && n.firstChild == (if Done(ds, d, i, k) > 0 then Some(ChildStart(ds, k)) else None)
    && (k == 0 ==> n.parent == 0 && n.nextSibling == None)
    && (k > 0 ==>
          && n.parent < k && n.parent <= d
          && ChildStart(ds, n.parent) <= k < ChildStart(ds, n.parent) + Done(ds, d, i, n.parent)
          && k - ChildStart(ds, n.parent) < |ds[n.parent].subdirs| && n.dir == ds[n.parent].subdirs[k - ChildStart(ds, n.parent)]
          && n.nextSibling == if k + 1 < ChildStart(ds, n.parent) + Done(ds, d, i, n.parent) then Some(k + 1) else None)
  }

  ghost predicate Linking(nodes: seq<Node>, ds: seq<Dir>, root: Dir, d: nat, i: nat) {
    && 0 < |nodes| == |ds| && d <= |ds| && ds[0] == root
    && i <= (if d < |ds| then |ds[d].subdirs| else 0)
    && |ds| == ChildStart(ds, d) + i
    && forall k :: 0 <= k < |ds| ==> NodeLinked(nodes[k], ds, d, i, k)
  }

  /** The finished list: position equals `idx`, children are contiguous and chained in order. */
  ghost predicate Listed(nodes: seq<Node>, root: Dir) {
    Linking(nodes, Dirs(nodes), root, |nodes|, 0)
  }

  lemma NodeMeans(n: Node, ds: seq<Dir>, k: nat)
    requires k < |ds| && NodeLinked(n, ds, |ds|, 0, k)
    ensures n.idx == k && n.dir == ds[k] && (k == 0 ==> n.parent == 0)
    ensures n.firstChild == (if |ds[k].subdirs| > 0 then Some(ChildStart(ds, k)) else None)
    ensures k > 0 ==> n.parent < k
    ensures k > 0 ==>
              && ChildStart(ds, n.parent) <= k < ChildStart(ds, n.parent) + |ds[n.parent].subdirs|
              && ds[k] == ds[n.parent].subdirs[k - ChildStart(ds, n.parent)]
              && n.nextSibling == if k + 1 < ChildStart(ds, n.parent) + |ds[n.parent].subdirs| then Some(k + 1) else None
  {
    hide ChildStart;
  }

  /** What the links of a finished list mean, node by node. */
  lemma LinksMean(nodes: seq<Node>, root: Dir, k: nat)
    requires Listed(nodes, root) && k < |nodes|
    ensures nodes[k].idx == k && nodes[0].dir == root && nodes[0].parent == 0
    ensures var ds := Dirs(nodes);
      && nodes[k].firstChild == (if |ds[k].subdirs| > 0 then Some(ChildStart(ds, k)) else None)
      && (k > 0 ==>
            var p := nodes[k].parent;
            && p < k
            && ChildStart(ds, p) <= k < ChildStart(ds, p) + |ds[p].subdirs|
            && ds[k] == ds[p].subdirs[k - ChildStart(ds, p)]
            && nodes[k].nextSibling == if k + 1 < ChildStart(ds, p) + |ds[p].subdirs| then Some(k + 1) else None)
  {
    hide ChildStart, NodeLinked;
    NodeMeans(nodes[k], Dirs(nodes), k);
    NodeMeans(nodes[0], Dirs(nodes), 0);
  }

  /** The nodes whose parent is `p` are exactly a run of `|subdirs|` nodes starting at its first child. */
  lemma ChildrenContiguous(nodes: seq<Node>, root: Dir, p: nat, k: nat)
    requires Listed(nodes, root) && p < |nodes| && k < |nodes|
    ensures ChildStart(Dirs(nodes), p) + |nodes[p].dir.subdirs| <= |nodes|
    ensures k > 0 && nodes[k].parent == p <==> ChildStart(Dirs(nodes), p) <= k < ChildStart(Dirs(nodes), p) + |nodes[p].dir.subdirs|
  {
    hide ChildStart;
    var ds := Dirs(nodes);
    ChildStartMonotone(ds, p, |ds|);
    LinksMean(nodes, root, k);
    if k > 0 {
      var q := nodes[k].parent;
      if q < p {
        ChildStartMonotone(ds, q, p);
      } else if p < q {
        ChildStartMonotone(ds, p, q);
      }
    }
  }

  ghost predicate ChildOf(nodes: seq<Node>, d: nat, j: nat, c: nat)
    requires d < |nodes| && c < |nodes| && j < |nodes[d].dir.subdirs|
  {
    && c > d && nodes[c].dir == nodes[d].dir.subdirs[j] && nodes[c].parent == d
    && nodes[c].nextSibling == if j + 1 < |nodes[d].dir.subdirs| then Some(c + 1) else None
  }

  /** Child `j` of directory `d` sits at `firstChild + j`. */
  lemma ChildIs(nodes: seq<Node>, root: Dir, d: nat, j: nat)
    requires Listed(nodes, root) && d < |nodes| && j < |nodes[d].dir.subdirs|
    ensures ChildStart(Dirs(nodes), d) + j < |nodes| && ChildOf(nodes, d, j, ChildStart(Dirs(nodes), d) + j)
  {
    hide ChildStart, Listed;
    ChildrenContiguous(nodes, root, d, 0);
    var c := ChildStart(Dirs(nodes), d) + j;
    ChildrenContiguous(nodes, root, d, c);
    LinksMean(nodes, root, c);
  }

  /** Breadth-first order: a later directory never has an earlier parent, nor a smaller depth. */
  lemma ParentsOrdered(nodes: seq<Node>, root: Dir, k: nat, l: nat)
    requires Listed(nodes, root) && 0 < k < l < |nodes|
    ensures nodes[k].parent <= nodes[l].parent < l
  {
    hide ChildStart;
    LinksMean(nodes, root, k);
    LinksMean(nodes, root, l);
    if nodes[l].parent < nodes[k].parent {
      ChildStartMonotone(Dirs(nodes), nodes[l].parent, nodes[k].parent);
    }
  }

  ghost predicate ParentsFirst(nodes: seq<Node>) {
    forall i :: 0 < i < |nodes| ==> nodes[i].parent < i
  }

  ghost function Depth(nodes: seq<Node>, k: nat): nat
    requires k < |nodes| && ParentsFirst(nodes)
  {
    if k == 0 then 0 else 1 + Depth(nodes, nodes[k].parent)
  }

  lemma {:induction false} DepthOrdered(nodes: seq<Node>, root: Dir, k: nat, l: nat)
    requires Listed(nodes, root) && k <= l < |nodes|
    requires ParentsFirst(nodes)
    ensures Depth(nodes, k) <= Depth(nodes, l)
    decreases l
  {
    hide Listed;
    if 0 < k < l {
      ParentsOrdered(nodes, root, k, l);
      DepthOrdered(nodes, root, nodes[k].parent, nodes[l].parent);
    }
  }

  // ---------------------------------------------------------------- building the list

  /** Directories in a forest; the measure that makes the breadth-first walk end. */
  function CountAll(ds: seq<Dir>): nat {
    if ds == [] then 0 else 1 + CountAll(ds[0].subdirs) + CountAll(ds[1..])
  }

  lemma {:induction false} CountConcat(a: seq<Dir>, b: seq<Dir>)
    ensures CountAll(a + b) == CountAll(a) + CountAll(b)
  {
    if a == [] {
      assert a + b == b;
    } else {
      CountConcat(a[1..], b);
      assert (a + b)[1..] == a[1..] + b;
    }
  }

  /** Breadth-first order of a forest whose first `d` directories are already expanded. */
  function Expand(ds: seq<Dir>, d: nat): (es: seq<Dir>)
    requires d <= |ds|
    ensures ds <= es
    decreases CountAll(ds[d..])
  {
    if d == |ds| then ds
    else
      ExpandMeasure(ds, d);
      Expand(ds + ds[d].subdirs, d + 1)
  }

  lemma ExpandMeasure(ds: seq<Dir>, d: nat)
    requires d < |ds|
    ensures CountAll((ds + ds[d].subdirs)[d + 1..]) < CountAll(ds[d..])
  {
    assert (ds + ds[d].subdirs)[d + 1..] == ds[d + 1..] + ds[d].subdirs;
    assert ds[d..][1..] == ds[d + 1..];
    CountConcat(ds[d + 1..], ds[d].subdirs);
  }

  /** Every directory of the tree below `root`, breadth first. */
  function BreadthFirst(root: Dir): (ds: seq<Dir>)
    ensures |ds| > 0
  {
    Expand([root], 0)
  }

  lemma NodeStays(n: Node, ds: seq<Dir>, x: Dir, d: nat, i: nat, k: nat)
    requires k < |ds| && d < |ds| && NodeLinked(n, ds, d, i, k)
    requires |ds| == ChildStart(ds, d) + i && i < |ds[d].subdirs|
    requires !(i == 0 && k == d) && !(i > 0 && k == |ds| - 1)
    ensures NodeLinked(n, ds + [x], d, i + 1, k)
  {
    hide ChildStart;
    ChildStartPrefix(ds, [x], k);
    ChildStartPrefix(ds, [x], d);
    if k > 0 {
      ChildStartPrefix(ds, [x], n.parent);
      if n.parent < d {
        ChildStartMonotone(ds, n.parent, d);
      }
    }
  }

  lemma LastOfSiblings(n: Node, ds: seq<Dir>, d: nat, i: nat)
    requires d < |ds| && 0 < i && |ds| == ChildStart(ds, d) + i
    requires NodeLinked(n, ds, d, i, |ds| - 1)
    ensures n.parent == d && d < |ds| - 1
  {
    if n.parent < d {
      ChildStartMonotone(ds, n.parent, d);
    }
  }

  /** One more child of `d`: appended to the list and chained behind its last sibling. */
  lemma ChildAppended(nodes: seq<Node>, ds: seq<Dir>, root: Dir, d: nat, i: nat)
    requires Linking(nodes, ds, root, d, i) && d < |ds| && i < |ds[d].subdirs|
    ensures var x := ds[d].subdirs[i];
      var child := Node(x, |ds|, d, None, None, []);
      var linked := if i > 0 then nodes[|ds| - 1 := nodes[|ds| - 1].(nextSibling := Some(|ds|))]
                    else nodes[d := nodes[d].(firstChild := Some(|ds|))];
      Linking(linked + [child], ds + [x], root, d, i + 1)
  {
    var x := ds[d].subdirs[i];
    var n := |ds|;
    var ds' := ds + [x];
    var child := Node(x, n, d, None, None, []);
    var linked := (if i > 0 then nodes[n - 1 := nodes[n - 1].(nextSibling := Some(n))]
                   else nodes[d := nodes[d].(firstChild := Some(n))]) + [child];
    hide ChildStart, NodeLinked;
    ChildStartPrefix(ds, [x], d);
    forall k | 0 <= k < n + 1 ensures NodeLinked(linked[k], ds', d, i + 1, k) {
      if k == n {
        NewNode(ds, d, i);
      } else {
        assert NodeLinked(nodes[k], ds, d, i, k);
        if i > 0 && k == n - 1 {
          SiblingLinked(nodes[k], ds, x, d, i);
        } else if i == 0 && k == d {
          FirstChildLinked(nodes[k], ds, x, d);
        } else {
          NodeStays(nodes[k], ds, x, d, i, k);
        }
      }
    }
  }

  lemma NewNode(ds: seq<Dir>, d: nat, i: nat)
    requires d < |ds| && i < |ds[d].subdirs| && |ds| == ChildStart(ds, d) + i
    ensures NodeLinked(Node(ds[d].subdirs[i], |ds|, d, None, None, []), ds + [ds[d].subdirs[i]], d, i + 1, |ds|)
  {
    hide ChildStart;
    ChildStartPrefix(ds, [ds[d].subdirs[i]], d);
  }

  lemma SiblingLinked(n: Node, ds: seq<Dir>, x: Dir, d: nat, i: nat)
    requires d < |ds| && 0 < i && |ds| == ChildStart(ds, d) + i
    requires NodeLinked(n, ds, d, i, |ds| - 1)
    ensures NodeLinked(n.(nextSibling := Some(|ds|)), ds + [x], d, i + 1, |ds| - 1)
  {
    LastOfSiblings(n, ds, d, i);
    hide ChildStart;
    ChildStartPrefix(ds, [x], d);
    ChildStartPrefix(ds, [x], |ds| - 1);
  }

  lemma FirstChildLinked(n: Node, ds: seq<Dir>, x: Dir, d: nat)
    requires d < |ds| && |ds| == ChildStart(ds, d) && NodeLinked(n, ds, d, 0, d)
    ensures NodeLinked(n.(firstChild := Some(|ds|)), ds + [x], d, 1, d)
  {
    hide ChildStart;
    ChildStartPrefix(ds, [x], d);
    if d > 0 {
      ChildStartPrefix(ds, [x], n.parent);
      if n.parent < d {
        ChildStartMonotone(ds, n.parent, d);
      }
    }
  }

  lemma NextDirectory(nodes: seq<Node>, ds: seq<Dir>, root: Dir, d: nat)
    requires d < |ds| && Linking(nodes, ds, root, d, |ds[d].subdirs|)
    ensures Linking(nodes, ds, root, d + 1, 0)
  {
    forall k | 0 <= k < |ds| ensures NodeLinked(nodes[k], ds, d + 1, 0, k) {
      assert NodeLinked(nodes[k], ds, d, |ds[d].subdirs|, k);
    }
  }

  /** The two nested loops that list every directory below `root` breadth first. */
  method ListDirectories(root: Dir) returns (nodes: seq<Node>)
    ensures Listed(nodes, root) && Dirs(nodes) == BreadthFirst(root)
    ensures forall k :: 0 <= k < |nodes| ==> nodes[k].files == []
  {
    hide ChildStart, NodeLinked;
    nodes := [Node(root, 0, 0, None, None, [])];
    ghost var ds := [root];
    LinkingStart(root);
    var d := 0;
    while d < |nodes|
      invariant d <= |nodes| && Linking(nodes, ds, root, d, 0)
      invariant Expand(ds, d) == BreadthFirst(root)
      invariant forall k :: 0 <= k < |nodes| ==> nodes[k].files == []
      decreases CountAll(ds[d..])
    {
      ghost var before := ds;
      DirIs(nodes, ds, root, d, d);
      var subdirs := nodes[d].dir.subdirs;
      var lastChild: Option<nat> := None;
      assert ds == before + subdirs[..0];
      var i := 0;
      while i < |subdirs|
        invariant i <= |subdirs| && d < |before|
        invariant subdirs == before[d].subdirs && ds == before + subdirs[..i]
        invariant Linking(nodes, ds, root, d, i)
        invariant forall k :: 0 <= k < |nodes| ==> nodes[k].files == []
        invariant lastChild == if i > 0 then Some(|nodes| - 1) else None
      {
        ChildAppended(nodes, ds, root, d, i);
        var tail := |nodes|;
        if lastChild.Some? {
          nodes := nodes[lastChild.value := nodes[lastChild.value].(nextSibling := Some(tail))];
        } else {
          nodes := nodes[d := nodes[d].(firstChild := Some(tail))];
        }
        nodes := nodes + [Node(subdirs[i], tail, d, None, None, [])];
        lastChild := Some(tail);
        ds := ds + [subdirs[i]];
        i := i + 1;
        assert subdirs[..i] == subdirs[..i - 1] + [subdirs[i - 1]];
      }
      NextDirectory(nodes, ds, root, d);
      assert subdirs[..i] == subdirs;
      ExpandMeasure(before, d);
      d := d + 1;
    }
    forall k | 0 <= k < |nodes| ensures nodes[k].dir == ds[k] {
      DirIs(nodes, ds, root, d, k);
    }
    assert Dirs(nodes) == ds;
  }

  lemma LinkingStart(root: Dir)
    ensures Linking([Node(root, 0, 0, None, None, [])], [root], root, 0, 0)
  {
  }

  lemma DirIs(nodes: seq<Node>, ds: seq<Dir>, root: Dir, d: nat, k: nat)
    requires Linking(nodes, ds, root, d, 0) && k < |ds|
    ensures nodes[k].dir == ds[k]
  {
    assert NodeLinked(nodes[k], ds, d, 0, k);
  }

  /** The walk meets every directory of the tree: names that are right in the tree are right in the list. */
  lemma TreeLevels(root: Dir)
    requires TreeOk(root)
    ensures LevelsOk(BreadthFirst(root))
  {
    hide TreeOk;
    ExpandedOk([root], 0);
  }

  lemma {:induction false} ExpandedOk(ds: seq<Dir>, d: nat)
    requires d <= |ds| && forall k :: 0 <= k < |ds| ==> TreeOk(ds[k])
    ensures LevelsOk(Expand(ds, d))
    decreases CountAll(ds[d..])
  {
    hide LevelOk;
    if d < |ds| {
      ExpandMeasure(ds, d);
      ExpandedOk(ds + ds[d].subdirs, d + 1);
    }
  }

  // ---------------------------------------------------------------- file sectors

  function FileNodes(ds: seq<Dir>, base: U32, d: nat): (fs: seq<FileNode>)
    requires d < |ds|
    ensures |fs| == |ds[d].files|
    ensures forall f :: 0 <= f < |fs| ==> fs[f] == FileNode(ds[d].files[f], FileLba(ds, d, base, f))
  {
    seq(|ds[d].files|, f requires 0 <= f < |ds[d].files| => FileNode(ds[d].files[f], FileLba(ds, d, base, f)))
  }

  /** Every file knows its sector; from sector `base` on the files lie one behind the other in list order. */
  ghost predicate FilesPlaced(nodes: seq<Node>, base: U32) {
    forall d :: 0 <= d < |nodes| ==> nodes[d].files == FileNodes(Dirs(nodes), base, d)
  }

  lemma FileLbaStep(ds: seq<Dir>, base: U32, d: nat, f: nat)
    requires d < |ds| && f < |ds[d].files|
    ensures Wrap32(FileLba(ds, d, base, f) + BytesToSectors(|ds[d].files[f].data|))
         == Wrap32(base + FilesBefore(ds, d) + FilesSectors(ds[d].files, f + 1))
  {
    hide FilesBefore, FilesSectors, Sectors, Wrap32, FileLba;
    FileLbaIs(ds, base, d, f);
    FilesSectorsStep(ds[d].files, f);
    Wrap32Sum(base + FilesBefore(ds, d) + FilesSectors(ds[d].files, f), Sectors(|ds[d].files[f].data|));
  }

  lemma FilesSectorsStep(files: seq<File>, f: nat)
    requires f < |files|
    ensures FilesSectors(files, f + 1) == FilesSectors(files, f) + Sectors(|files[f].data|)
  {
  }

  lemma Wrap32Sum(a: nat, b: nat)
    ensures Wrap32(Wrap32(a) + Wrap32(b)) == Wrap32(a + b)
  {
  }

  /** The nested loops that walk every file list and hand out sectors, counting on from `base`. */
  method PlaceFiles(list: seq<Node>, base: U32) returns (nodes: seq<Node>, filesSizeSectors: U32)
    requires forall k :: 0 <= k < |list| ==> list[k].files == []
    ensures |nodes| == |list| && FilesPlaced(nodes, base)
    ensures forall d :: 0 <= d < |nodes| ==> nodes[d] == list[d].(files := nodes[d].files)
    ensures filesSizeSectors == Wrap32(base + FilesBefore(Dirs(list), |list|))
  {
    hide FilesBefore, FilesSectors, Wrap32, BytesToSectors, FileLba;
    nodes := list;
    ghost var ds := Dirs(list);
    filesSizeSectors := base;
    FilesStart(ds, base);
    var d := 0;
    while d < |nodes|
      invariant d <= |nodes| == |list|
      invariant forall k :: 0 <= k < |list| ==> nodes[k] == list[k].(files := if k < d then FileNodes(ds, base, k) else [])
      invariant filesSizeSectors == Wrap32(base + FilesBefore(ds, d))
    {
      var files := nodes[d].dir.files;
      var placed: seq<FileNode> := [];
      FilesDirStart(ds, d);
      var f := 0;
      while f < |files|
        invariant f <= |files| && files == ds[d].files
        invariant placed == FileNodes(ds, base, d)[..f]
        invariant filesSizeSectors == Wrap32(base + FilesBefore(ds, d) + FilesSectors(ds[d].files, f))
      {
        FileLbaIs(ds, base, d, f);
        FileLbaStep(ds, base, d, f);
        assert FileNodes(ds, base, d)[..f + 1] == FileNodes(ds, base, d)[..f] + [FileNodes(ds, base, d)[f]];
        placed := placed + [FileNode(files[f], filesSizeSectors)];
        filesSizeSectors := Wrap32(filesSizeSectors + BytesToSectors(|files[f].data|));
        f := f + 1;
      }
      nodes := nodes[d := nodes[d].(files := placed)];
      assert placed == FileNodes(ds, base, d);
      FilesDirEnd(ds, d);
      d := d + 1;
    }
    assert Dirs(nodes) == ds;
  }

  lemma FilesStart(ds: seq<Dir>, base: U32)
    ensures Wrap32(base + FilesBefore(ds, 0)) == base
  {
  }

  lemma FilesDirStart(ds: seq<Dir>, d: nat)
    requires d < |ds|
    ensures FilesSectors(ds[d].files, 0) == 0
  {
  }

  lemma FilesDirEnd(ds: seq<Dir>, d: nat)
    requires d < |ds|
    ensures FilesBefore(ds, d + 1) == FilesBefore(ds, d) + FilesSectors(ds[d].files, |ds[d].files|)
  {
  }

  lemma FileLbaIs(ds: seq<Dir>, base: U32, d: nat, f: nat)
    requires d < |ds| && f < |ds[d].files|
    ensures FileLba(ds, d, base, f) == Wrap32(base + FilesBefore(ds, d) + FilesSectors(ds[d].files, f))
  {
  }
}
