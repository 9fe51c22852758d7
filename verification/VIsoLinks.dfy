/** After all patching and rebasing, everything that names a directory names the same sector. */
module VIsoLinks {
  import opened Bytes
  import opened DirRecords
  import opened PathTables
  import opened FolderTree
  import opened DirList
  import opened DirContent
  import opened DirLinks
  import opened DirBuild
  import opened VIsoTables
  import opened VIso
  import opened VIsoImage
  import opened IsoReader

  /** What a reader finds in a path table is the list of directories, in either byte order. */
  lemma TableRead(v: Volume, root: Dir, joliet: bool, msb: bool)
    requires VolumeOk(v, root) && LevelsOk(Dirs(v.nodes))
    ensures PathTables.ParseEntries(v.Table(joliet, msb), msb) == PathEntries(v.nodes, joliet, v.DirsBase(joliet), TableCount(v.nodes))
  {
    hide VolumeOk, LevelsOk, Table, PathEntries, EntriesOk;
    VolumeTable(v, root, FRESH, joliet, msb);
    ParseTable(PathEntries(v.nodes, joliet, v.DirsBase(joliet), TableCount(v.nodes)), msb);
  }

  /**
   An entry names the sector of the directory's own "." record, and its parent by 1-based number.
   The table ends with directory 65535; up to there no parent number is truncated.
   */
  lemma TableEntry(v: Volume, root: Dir, joliet: bool, msb: bool, d: nat)
    requires VolumeOk(v, root) && LevelsOk(Dirs(v.nodes)) && d < TableCount(v.nodes)
    ensures var es := PathTables.ParseEntries(v.Table(joliet, msb), msb);
      && |es| == TableCount(v.nodes) && es[d].loc == ExtentOf(v, joliet, d).start
      && es[d].parent == (if d == 0 then 1 else v.nodes[d].parent + 1) && es[d].parent <= (if d == 0 then 1 else d)
      && es[d].id == PathId(Dirs(v.nodes), joliet, d)
  {
    hide VolumeOk, LevelsOk, PathId, DirExtent, Ready, PathTables.ParseEntries, PathEntry;
    TableRead(v, root, joliet, msb);
    VolumeReady(v, root, FRESH);
    ReadyMeans(v.nodes, root, d);
    EntryIs(v.nodes, joliet, v.DirsBase(joliet), d);
  }

  lemma EntryIs(nodes: seq<Node>, joliet: bool, base: U32, d: nat)
    requires LevelsOk(Dirs(nodes)) && d < |nodes| && d < 65536 && (d > 0 ==> nodes[d].parent < d)
    ensures var e := PathEntry(nodes, joliet, base, d);
      && e.loc == DirExtent(Dirs(nodes), joliet, base, d).start && e.id == PathId(Dirs(nodes), joliet, d)
      && e.parent == if d == 0 then 1 else nodes[d].parent + 1
  {
    hide LevelsOk, DirExtent, PathId;
  }

  lemma ReadyMeans(nodes: seq<Node>, root: Dir, d: nat)
    requires Ready(nodes, root) && d < |nodes|
    ensures d > 0 ==> nodes[d].parent < d
  {
    hide LevelsOk, Listed;
    LinksMean(nodes, root, d);
  }

  /** Entries come in breadth-first order: by level, then by parent number (ECMA-119 section 6.9.1). */
  lemma TableOrder(v: Volume, root: Dir, joliet: bool, msb: bool, k: nat, l: nat)
    requires VolumeOk(v, root) && LevelsOk(Dirs(v.nodes)) && 0 < k < l < TableCount(v.nodes)
    ensures var es := PathTables.ParseEntries(v.Table(joliet, msb), msb);
      |es| == TableCount(v.nodes) && es[k].parent <= es[l].parent <= l
    ensures ParentsFirst(v.nodes) && Depth(v.nodes, k) <= Depth(v.nodes, l)
  {
    hide VolumeOk, LevelsOk, ExtentOf, PathId, Ready, PathTables.ParseEntries, ParentsFirst;
    TableEntry(v, root, joliet, msb, k);
    TableEntry(v, root, joliet, msb, l);
    VolumeReady(v, root, FRESH);
    ReadyOrder(v.nodes, root, k, l);
  }

  lemma ReadyOrder(nodes: seq<Node>, root: Dir, k: nat, l: nat)
    requires Ready(nodes, root) && 0 < k < l < |nodes|
    ensures nodes[k].parent <= nodes[l].parent < l
    ensures ParentsFirst(nodes) && Depth(nodes, k) <= Depth(nodes, l)
  {
    hide LevelsOk, Listed;
    forall i | 0 < i < |nodes| ensures nodes[i].parent < i {
      LinksMean(nodes, root, i);
    }
    ParentsOrdered(nodes, root, k, l);
    DepthOrdered(nodes, root, k, l);
  }

  /** The first two records are "." with extent `self` and ".." with extent `up`. */
  ghost predicate DotsAre(rs: seq<Rec>, self: Extent, up: Extent) {
    |rs| >= 2 && rs[0] == DirRec(self, rs[0].time, [0]) && rs[1] == DirRec(up, rs[1].time, [1])
  }

  lemma DotsOf(v: Volume, joliet: bool, e: nat)
    requires LevelsOk(Dirs(v.nodes)) && e < |v.nodes| && v.nodes[e].parent < |v.nodes|
    ensures DotsAre(RecsOf(v, joliet, e), ExtentOf(v, joliet, e), ExtentOf(v, joliet, v.nodes[e].parent))
  {
    hide LevelsOk, DirExtent, FilesRecs, Lbas, KidExtents, KidRecs;
  }

  lemma MyPlace(nodes: seq<Node>, root: Dir, e: nat)
    requires Ready(nodes, root) && 0 < e < |nodes|
    ensures nodes[e].parent < e && ChildStart(Dirs(nodes), nodes[e].parent) <= e
    ensures e - ChildStart(Dirs(nodes), nodes[e].parent) < |nodes[nodes[e].parent].dir.subdirs|
  {
    hide LevelsOk, Listed, ChildStart;
    LinksMean(nodes, root, e);
  }

  lemma EntryInParent(v: Volume, labels: Labels, root: Dir, joliet: bool, e: nat)
    requires VolumeOk(v, root) && Sized(v) && Rooted(v) && SectorsFit(Dirs(v.nodes)) && 0 < e < |v.nodes|
    ensures v.nodes[e].parent < e
    ensures FindDir(ReadDir(Image(v, labels), ExtentOf(v, joliet, v.nodes[e].parent)), DirId(v.nodes[e].dir.name, joliet))
         == Some(ExtentOf(v, joliet, e))
  {
    hide VolumeOk, Sized, LevelsOk, Image, ExtentOf, ReadDir, FindDir, Ready, ChildStart, DirId, SectorsFit, Rooted, RecsOf;
    VolumeReady(v, root, FRESH);
    MyPlace(v.nodes, root, e);
    var p := v.nodes[e].parent;
    ReadDirIs(v, labels, root, joliet, p);
    ChildFound(v, root, joliet, p, e - ChildStart(Dirs(v.nodes), p));
  }

  /**
   The extent of directory `e` is the same in its own "." record, in its entry in its parent, in
   the ".." record of each of its children (`DotsAre` of the child), and, for the sector, in
   both of its path tables if it is among the 65536 directories these list.
   */
  lemma OneExtentPerDirectory(v: Volume, labels: Labels, root: Dir, joliet: bool, e: nat)
    requires VolumeOk(v, root) && Sized(v) && Rooted(v) && SectorsFit(Dirs(v.nodes)) && e < |v.nodes|
    ensures v.nodes[e].parent < |v.nodes|
    ensures DotsAre(ReadDir(Image(v, labels), ExtentOf(v, joliet, e)), ExtentOf(v, joliet, e), ExtentOf(v, joliet, v.nodes[e].parent))
    ensures e > 0 ==>
      FindDir(ReadDir(Image(v, labels), ExtentOf(v, joliet, v.nodes[e].parent)), DirId(v.nodes[e].dir.name, joliet))
        == Some(ExtentOf(v, joliet, e))
    ensures e < TableCount(v.nodes) ==>
      forall msb :: |PathTables.ParseEntries(v.Table(joliet, msb), msb)| == TableCount(v.nodes)
                       && PathTables.ParseEntries(v.Table(joliet, msb), msb)[e].loc == ExtentOf(v, joliet, e).start
  {
    hide VolumeOk, Sized, LevelsOk, Image, ExtentOf, ReadDir, FindDir, PathTables.ParseEntries, DirId, SectorsFit, Rooted, RecsOf, DotsAre;
    VolumeReady(v, root, FRESH);
    ReadDirIs(v, labels, root, joliet, e);
    DotsOf(v, joliet, e);
    if e > 0 {
      EntryInParent(v, labels, root, joliet, e);
    }
    if e < TableCount(v.nodes) {
      TableEntry(v, root, joliet, false, e);
      TableEntry(v, root, joliet, true, e);
    }
  }

  // ---------------------------------------------------------------- recording dates

  /** The dates of a directory, in the order of `Ids`: its own, its parent's, those of its files and subdirectories. */
  function Dates(dir: Dir, upTime: Stamp): (ts: seq<Stamp>)
    ensures |ts| == 2 + |dir.files| + |dir.subdirs|
    ensures ts[0] == dir.time && ts[1] == upTime
    ensures forall f :: 0 <= f < |dir.files| ==> ts[2 + f] == dir.files[f].time
    ensures forall j :: 0 <= j < |dir.subdirs| ==> ts[2 + |dir.files| + j] == dir.subdirs[j].time
  {
    [dir.time, upTime]
    + seq(|dir.files|, f requires 0 <= f < |dir.files| => dir.files[f].time)
    + seq(|dir.subdirs|, j requires 0 <= j < |dir.subdirs| => dir.subdirs[j].time)
  }

  lemma {:induction false} FileOfRec(files: seq<File>, lbas: seq<U32>, joliet: bool, n: nat, i: nat) returns (f: nat)
    requires n <= |files| == |lbas| && i < |FilesRecs(files, lbas, joliet, n)|
    ensures f < n && var r := FilesRecs(files, lbas, joliet, n)[i]; r.id == FileId(files[f].name, joliet) && r.time == files[f].time
  {
    hide FileId;
    if i < |FilesRecs(files, lbas, joliet, n - 1)| {
      f := FileOfRec(files, lbas, joliet, n - 1, i);
    } else {
      f := n - 1;
    }
  }

  /** Which name and date a record of a directory has. */
  lemma RecOrigin(dir: Dir, upTime: Stamp, joliet: bool, self: Extent, up: Extent, lbas: seq<U32>, kids: seq<Extent>, i: nat) returns (m: nat)
    requires |lbas| == |dir.files| && |kids| == |dir.subdirs| && i < |RecList(dir, upTime, joliet, self, up, lbas, kids)|
    ensures m < 2 + |dir.files| + |dir.subdirs|
    ensures var r := RecList(dir, upTime, joliet, self, up, lbas, kids)[i]; r.id == Ids(dir, joliet)[m] && r.time == Dates(dir, upTime)[m]
  {
    hide FilesRecs, RecList, FileId, DirId, Ids, Dates;
    var n := |FilesRecs(dir.files, lbas, joliet, |dir.files|)|;
    RecListAt(dir, upTime, joliet, self, up, lbas, kids, i);
    if i < 2 {
      m := i;
    } else if i < 2 + n {
      var f := FileOfRec(dir.files, lbas, joliet, |dir.files|, i - 2);
      m := 2 + f;
    } else {
      var j := i - 2 - n;
      assert Ids(dir, joliet)[2 + |dir.files| + j] == DirId(dir.subdirs[j].name, joliet);
      m := 2 + |dir.files| + j;
    }
  }

  /** Every record of `rs` has the date of what its identifier names in `dir`. */
  ghost predicate Dated(rs: seq<Rec>, dir: Dir, upTime: Stamp, joliet: bool) {
    forall i, m :: 0 <= i < |rs| && 0 <= m < 2 + |dir.files| + |dir.subdirs| && rs[i].id == Ids(dir, joliet)[m] ==>
      rs[i].time == Dates(dir, upTime)[m]
  }

  lemma ListDated(dir: Dir, upTime: Stamp, joliet: bool, self: Extent, up: Extent, lbas: seq<U32>, kids: seq<Extent>)
    requires |lbas| == |dir.files| && |kids| == |dir.subdirs| && LevelOk(dir)
    ensures Dated(RecList(dir, upTime, joliet, self, up, lbas, kids), dir, upTime, joliet)
  {
    hide RecList, LevelOk, Ids, Dates;
    var rs := RecList(dir, upTime, joliet, self, up, lbas, kids);
    forall i, m | 0 <= i < |rs| && 0 <= m < 2 + |dir.files| + |dir.subdirs| && rs[i].id == Ids(dir, joliet)[m]
      ensures rs[i].time == Dates(dir, upTime)[m]
    {
      var k := RecOrigin(dir, upTime, joliet, self, up, lbas, kids, i);
      SameName(dir, joliet, k, m);
    }
  }

  /** Every record found in a directory of the image has the date of what it names. */
  lemma DatesRead(v: Volume, labels: Labels, root: Dir, joliet: bool, e: nat)
    requires VolumeOk(v, root) && LevelsOk(Dirs(v.nodes)) && SectorsFit(Dirs(v.nodes)) && e < |v.nodes|
    ensures Rooted(v) && v.nodes[e].parent < |v.nodes|
    ensures Dated(ReadDir(Image(v, labels), ExtentOf(v, joliet, e)), v.nodes[e].dir, v.nodes[v.nodes[e].parent].dir.time, joliet)
  {
    hide VolumeOk, Sized, Image, ExtentOf, ReadDir, SectorsFit, LevelOk, RecList, DirExtent, Lbas, KidExtents, Dated;
    VolumeSized(v, root, FRESH);
    SizedRoots(v);
    ReadDirIs(v, labels, root, joliet, e);
    var ds, up, n := Dirs(v.nodes), v.nodes[e].parent, |v.nodes|;
    assert LevelOk(ds[e]);
    ListDated(ds[e], ds[up].time, joliet, DirExtent(ds, joliet, v.DirsBase(joliet), e), DirExtent(ds, joliet, v.DirsBase(joliet), up),
              Lbas(ds, e, v.FilesBase()), KidExtents(ds, joliet, v.DirsBase(joliet), n, e));
  }

  lemma SameName(dir: Dir, joliet: bool, k: nat, m: nat)
    requires LevelOk(dir) && k < |Ids(dir, joliet)| && m < |Ids(dir, joliet)| && Ids(dir, joliet)[k] == Ids(dir, joliet)[m]
    ensures k == m
  {
    hide Ids;
  }
}
