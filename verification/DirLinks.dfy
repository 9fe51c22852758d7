/** `VIsoFile::buildContent`, second half: linking a finished directory into its parent. */
module DirLinks {
  import opened Bytes
  import opened DirRecords
  import opened FolderTree
  import opened DirList
  import opened DirContent

  // ---------------------------------------------------------------- record lists under patching

  /** Index of child `j` of a directory among its records. */
  function KidIndex(dir: Dir, lbas: seq<U32>, joliet: bool, j: nat): nat
    requires |lbas| == |dir.files|
  {
    2 + |FilesRecs(dir.files, lbas, joliet, |dir.files|)| + j
  }

  lemma RecListAt(dir: Dir, upTime: Stamp, joliet: bool, self: Extent, up: Extent, lbas: seq<U32>, kids: seq<Extent>, i: nat)
    requires |lbas| == |dir.files| && |kids| == |dir.subdirs|
    ensures var rs, fs := RecList(dir, upTime, joliet, self, up, lbas, kids), FilesRecs(dir.files, lbas, joliet, |dir.files|);
      && |rs| == 2 + |fs| + |kids|
      && (2 <= i < 2 + |fs| ==> rs[i] == fs[i - 2])
      && (2 + |fs| <= i < |rs| ==>
            rs[i] == DirRec(kids[i - 2 - |fs|], dir.subdirs[i - 2 - |fs|].time, DirId(dir.subdirs[i - 2 - |fs|].name, joliet)))
  {
    hide FilesRecs, DirId;
  }

  lemma PatchSelf(dir: Dir, upTime: Stamp, joliet: bool, self: Extent, self': Extent, up: Extent, lbas: seq<U32>, kids: seq<Extent>)
    requires |lbas| == |dir.files| && |kids| == |dir.subdirs|
    ensures RecList(dir, upTime, joliet, self, up, lbas, kids)[0 := DirRec(self', dir.time, [0])]
         == RecList(dir, upTime, joliet, self', up, lbas, kids)
  {
    hide FilesRecs, KidRecs;
  }

  lemma PatchUp(dir: Dir, upTime: Stamp, joliet: bool, self: Extent, up: Extent, up': Extent, lbas: seq<U32>, kids: seq<Extent>)
    requires |lbas| == |dir.files| && |kids| == |dir.subdirs|
    ensures RecList(dir, upTime, joliet, self, up, lbas, kids)[1 := DirRec(up', upTime, [1])]
         == RecList(dir, upTime, joliet, self, up', lbas, kids)
  {
    hide FilesRecs, KidRecs;
  }

  lemma PatchKid(dir: Dir, upTime: Stamp, joliet: bool, self: Extent, up: Extent, lbas: seq<U32>, kids: seq<Extent>, j: nat, x: Extent)
    requires |lbas| == |dir.files| && |kids| == |dir.subdirs| && j < |kids|
    ensures KidIndex(dir, lbas, joliet, j) < |RecList(dir, upTime, joliet, self, up, lbas, kids)|
    ensures var rs, k := RecList(dir, upTime, joliet, self, up, lbas, kids), KidIndex(dir, lbas, joliet, j);
      rs[k := rs[k].(start := x.start, size := x.size)] == RecList(dir, upTime, joliet, self, up, lbas, kids[j := x])
  {
    hide FilesRecs, DirId, RecList;
    var rs, k := RecList(dir, upTime, joliet, self, up, lbas, kids), KidIndex(dir, lbas, joliet, j);
    var rs' := RecList(dir, upTime, joliet, self, up, lbas, kids[j := x]);
    RecListAt(dir, upTime, joliet, self, up, lbas, kids, k);
    RecListAt(dir, upTime, joliet, self, up, lbas, kids[j := x], k);
    forall i | 0 <= i < |rs| ensures rs[k := rs[k].(start := x.start, size := x.size)][i] == rs'[i] {
      RecListAt(dir, upTime, joliet, self, up, lbas, kids, i);
      RecListAt(dir, upTime, joliet, self, up, lbas, kids[j := x], i);
    }
  }

  // ---------------------------------------------------------------- finding a child

  lemma {:induction false} FilesRecsNamed(files: seq<File>, lbas: seq<U32>, joliet: bool, n: nat, i: nat) returns (f: nat)
    requires n <= |files| == |lbas| && i < |FilesRecs(files, lbas, joliet, n)|
    ensures f < n && FilesRecs(files, lbas, joliet, n)[i].id == FileId(files[f].name, joliet)
  {
    hide FileId, FileRec, Parts;
    var before := FilesRecs(files, lbas, joliet, n - 1);
    if i < |before| {
      f := FilesRecsNamed(files, lbas, joliet, n - 1, i);
    } else {
      f := n - 1;
      assert FilesRecs(files, lbas, joliet, n)[i] == FileRecs(files[f], lbas[f], joliet)[i - |before|];
      FileRecNamed(files[f], lbas[f], joliet, i - |before|);
    }
  }

  lemma FileRecNamed(f: File, lba: U32, joliet: bool, i: nat)
    requires i < Parts(|f.data|)
    ensures FileRec(f, lba, joliet, i).id == FileId(f.name, joliet) && !IsDir(FileRec(f, lba, joliet, i))
  {
    hide FileId, Wrap32, Parts;
  }

  lemma IdsOf(dir: Dir, joliet: bool)
    requires LevelOk(dir)
    ensures NoDuplicates(Ids(dir, joliet))
  {
  }

  /** No record but its own carries the identifier of child `j`. */
  lemma OnlyKidMatches(dir: Dir, upTime: Stamp, joliet: bool, self: Extent, up: Extent, lbas: seq<U32>, kids: seq<Extent>, j: nat, i: nat)
    requires |lbas| == |dir.files| && |kids| == |dir.subdirs| && LevelOk(dir) && j < |kids|
    requires i < |RecList(dir, upTime, joliet, self, up, lbas, kids)|
    ensures RecList(dir, upTime, joliet, self, up, lbas, kids)[i].id == DirId(dir.subdirs[j].name, joliet) <==> i == KidIndex(dir, lbas, joliet, j)
  {
    hide DirId, FileId, FilesRecs, RecList, LevelOk, Ids;
    var rs := RecList(dir, upTime, joliet, self, up, lbas, kids);
    var n := |FilesRecs(dir.files, lbas, joliet, |dir.files|)|;
    RecListAt(dir, upTime, joliet, self, up, lbas, kids, i);
    IdsOf(dir, joliet);
    var ids, m := Ids(dir, joliet), 2 + |dir.files| + j;
    assert ids[m] == DirId(dir.subdirs[j].name, joliet);
    if i < 2 {
      assert ids[i] != ids[m];
    } else if i < 2 + n {
      var f := FilesRecsNamed(dir.files, lbas, joliet, |dir.files|, i - 2);
      assert rs[i].id == ids[2 + f] != ids[m];
    } else {
      var k := i - 2 - n;
      assert rs[i].id == ids[2 + |dir.files| + k];
      if k != j {
        assert ids[2 + |dir.files| + k] != ids[m];
      }
    }
  }

  lemma {:induction false} FirstMatchIs(rs: seq<Rec>, key: seq<Byte>, i: nat, m: nat)
    requires i <= m < |rs| && rs[m].id == key && forall k :: i <= k < m ==> rs[k].id != key
    ensures FirstMatch(rs, key, i) == Some(m)
  {
  }

  lemma KidFound(dir: Dir, upTime: Stamp, joliet: bool, self: Extent, up: Extent, lbas: seq<U32>, kids: seq<Extent>, j: nat)
    requires |lbas| == |dir.files| && |kids| == |dir.subdirs| && LevelOk(dir) && j < |kids|
    ensures FirstMatch(RecList(dir, upTime, joliet, self, up, lbas, kids), SearchKey(dir.subdirs[j].name, joliet), 0)
         == Some(KidIndex(dir, lbas, joliet, j))
  {
    var rs := RecList(dir, upTime, joliet, self, up, lbas, kids);
    RecListAt(dir, upTime, joliet, self, up, lbas, kids, 0);
    assert DirNameOk(dir.subdirs[j].name);
    DirNameFits(dir.subdirs[j].name, joliet);
    hide DirId, SearchKey, RecList, FilesRecs, LevelOk, KidIndex;
    var m := KidIndex(dir, lbas, joliet, j);
    assert m < |rs| by { PatchKid(dir, upTime, joliet, self, up, lbas, kids, j, NOWHERE); }
    forall k | 0 <= k <= m ensures rs[k].id == DirId(dir.subdirs[j].name, joliet) <==> k == m {
      OnlyKidMatches(dir, upTime, joliet, self, up, lbas, kids, j, k);
    }
    FirstMatchIs(rs, DirId(dir.subdirs[j].name, joliet), 0, m);
  }

  // ---------------------------------------------------------------- one directory more

  /** Directory `e` of a finished list, with the first `linked` directories placed. */
  function NodeRecs(nodes: seq<Node>, joliet: bool, dirBase: U32, fileBase: U32, linked: nat, e: nat): seq<Rec>
    requires LevelsOk(Dirs(nodes)) && linked <= |nodes| && e < |nodes| && nodes[e].parent < |nodes|
  {
    DirRecs(Dirs(nodes), nodes[e].parent, joliet, dirBase, fileBase, linked, e)
  }

  lemma NodeRecsLens(nodes: seq<Node>, joliet: bool, dirBase: U32, fileBase: U32, linked: nat, e: nat)
    requires LevelsOk(Dirs(nodes)) && linked <= |nodes| && e < |nodes| && nodes[e].parent < |nodes|
    ensures RecsOk(NodeRecs(nodes, joliet, dirBase, fileBase, linked, e))
    ensures End(Lens(NodeRecs(nodes, joliet, dirBase, fileBase, linked, e))) == PackedEnd(nodes[e].dir, joliet)
  {
    hide LevelOk, RecList, Shape, End, Lens;
    var ds := Dirs(nodes);
    assert LevelOk(ds[e]);
    RecListLens(ds[e], ds[nodes[e].parent].time, joliet, DirExtent(ds, joliet, dirBase, e),
                DirExtent(ds, joliet, dirBase, nodes[e].parent), Lbas(ds, e, fileBase), KidExtents(ds, joliet, dirBase, linked, e));
  }

  /** Placing directory `d` changes exactly one record of an earlier directory: `d`'s entry in its parent. */
  lemma OneMoreLinked(nodes: seq<Node>, root: Dir, joliet: bool, dirBase: U32, fileBase: U32, d: nat, e: nat)
    requires Ready(nodes, root) && e < d < |nodes| && nodes[e].parent < |nodes|
    ensures nodes[d].parent < d && ChildStart(Dirs(nodes), nodes[d].parent) <= d
    ensures e != nodes[d].parent ==> NodeRecs(nodes, joliet, dirBase, fileBase, d + 1, e) == NodeRecs(nodes, joliet, dirBase, fileBase, d, e)
    ensures e == nodes[d].parent ==>
      var ds := Dirs(nodes);
      var k := KidIndex(ds[e], Lbas(ds, e, fileBase), joliet, d - ChildStart(ds, e));
      var rs, x := NodeRecs(nodes, joliet, dirBase, fileBase, d, e), DirExtent(ds, joliet, dirBase, d);
      && k < |rs| && NodeRecs(nodes, joliet, dirBase, fileBase, d + 1, e) == rs[k := rs[k].(start := x.start, size := x.size)]
      && FirstMatch(rs, SearchKey(ds[d].name, joliet), 0) == Some(k)
  {
    hide ChildStart, Listed, LevelOk, RecList, DirExtent, Lbas, KidIndex, SearchKey;
    var ds := Dirs(nodes);
    LinksMean(nodes, root, d);
    ChildrenContiguous(nodes, root, e, d);
    var now, then' := KidExtents(ds, joliet, dirBase, d, e), KidExtents(ds, joliet, dirBase, d + 1, e);
    if e != nodes[d].parent {
      assert now == then';
    } else {
      var j := d - ChildStart(ds, e);
      assert then' == now[j := DirExtent(ds, joliet, dirBase, d)];
      var self, up := DirExtent(ds, joliet, dirBase, e), DirExtent(ds, joliet, dirBase, nodes[e].parent);
      PatchKid(ds[e], ds[nodes[e].parent].time, joliet, self, up, Lbas(ds, e, fileBase), now, j, DirExtent(ds, joliet, dirBase, d));
      KidFound(ds[e], ds[nodes[e].parent].time, joliet, self, up, Lbas(ds, e, fileBase), now, j);
    }
  }

  /** None of the children of `d` is placed when `d` itself has just been. */
  lemma KidsBlank(nodes: seq<Node>, root: Dir, joliet: bool, dirBase: U32, d: nat)
    requires Ready(nodes, root) && d < |nodes|
    ensures KidExtents(Dirs(nodes), joliet, dirBase, d + 1, d) == Blanks(|nodes[d].dir.subdirs|)
  {
    hide ChildStart, Listed, LevelOk, DirExtent;
    var ds := Dirs(nodes);
    var xs := KidExtents(ds, joliet, dirBase, d + 1, d);
    forall j | 0 <= j < |xs| ensures xs[j] == NOWHERE {
      ChildNode(nodes, root, d, j);
    }
  }
}
