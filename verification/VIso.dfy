/**
 The builder half of `VIsoFile`: the directory list, both directory trees and the four path
 tables, laid out with relative sector numbers and rebased once the layout is known.
 */
module VIso {
  import opened Bytes
  import opened DirRecords
  import opened PathTables
  import opened FolderTree
  import opened DirList
  import opened DirContent
  import opened DirLinks
  import opened DirBuild
  import opened VIsoTables

  // ---------------------------------------------------------------- the finished metadata

  /** Everything `build` leaves behind: both trees of directories, and four path tables. */
  datatype Volume = Volume(nodes: seq<Node>, content: seq<seq<Byte>>, contentJoliet: seq<seq<Byte>>,
                           tableL: seq<Byte>, tableM: seq<Byte>, tableJolietL: seq<Byte>, tableJolietM: seq<Byte>)
  {
    function Content(joliet: bool): seq<seq<Byte>> {
      if joliet then contentJoliet else content
    }

    function Table(joliet: bool, msb: bool): seq<Byte> {
      if joliet then (if msb then tableJolietM else tableJolietL) else if msb then tableM else tableL
    }

    function IsoLba(): U32 {
      Wrap32(20 + 2 * BytesToSectors(|tableL|) as int + 2 * BytesToSectors(|tableJolietL|) as int)
    }

    /** The count of directory sectors after a tree is complete. */
    function DirsCount(joliet: bool, from: Counters): U32
      requires LevelsOk(Dirs(nodes))
    {
      Wrap32(from.Of(joliet) + RelStart(Dirs(nodes), joliet, |nodes|))
    }

    /** What `build` takes for the first sector of a tree, and of the file area. */
    function DirsLba(joliet: bool, from: Counters): U32
      requires LevelsOk(Dirs(nodes))
    {
      if joliet then Wrap32(IsoLba() + DirsCount(false, from)) else IsoLba()
    }

    function FilesLba(from: Counters): U32
      requires LevelsOk(Dirs(nodes))
    {
      Wrap32(DirsLba(true, from) + DirsCount(true, from))
    }

    /** The sectors that the records of directory 0 and of the first file end up with. */
    function DirsBase(joliet: bool, from: Counters := FRESH): U32
      requires LevelsOk(Dirs(nodes))
    {
      Wrap32(from.Of(joliet) + DirsLba(joliet, from))
    }

    function FilesBase(from: Counters := FRESH): U32
      requires LevelsOk(Dirs(nodes))
    {
      Wrap32(from.files + FilesLba(from))
    }
  }

  /** One tree of a finished volume, with its directories at `dirBase` and the files at `fileBase`. */
  ghost predicate TreeBuilt(nodes: seq<Node>, content: seq<seq<Byte>>, joliet: bool, dirBase: U32, fileBase: U32)
    requires LevelsOk(Dirs(nodes))
  {
    && |content| == |nodes|
    && forall e :: 0 <= e < |nodes| ==> DirOk(nodes, content[e], joliet, dirBase, fileBase, |nodes|, e)
  }

  ghost predicate TableBuilt(nodes: seq<Node>, table: seq<Byte>, joliet: bool, msb: bool, dirBase: U32)
    requires LevelsOk(Dirs(nodes))
  {
    var es := PathEntries(nodes, joliet, dirBase, TableCount(nodes));
    EntriesOk(es) && table == Table(es, msb)
  }

  /** Every directory fitted the scratch buffer. */
  ghost predicate SmallDirs(nodes: seq<Node>, joliet: bool)
    requires LevelsOk(Dirs(nodes))
  {
    forall d :: 0 <= d < |nodes| ==> DirSize(Dirs(nodes)[d], joliet) <= TEMP_BUF_SIZE
  }

  /**
   The path tables and both trees are exactly what the folder tree calls for; with other counts than
   `FRESH`, what `build` makes of it when it counts on from them.
   */
  ghost predicate VolumeOk(v: Volume, root: Dir, from: Counters := FRESH) {
    && Ready(v.nodes, root) && LevelsOk(Dirs(v.nodes)) && |v.nodes| > 0 && FilesPlaced(v.nodes, from.files)
    && (forall joliet :: SmallDirs(v.nodes, joliet))
    && (forall joliet :: TreeBuilt(v.nodes, v.Content(joliet), joliet, v.DirsBase(joliet, from), v.FilesBase(from)))
    && (forall joliet, msb :: TableBuilt(v.nodes, v.Table(joliet, msb), joliet, msb, v.DirsBase(joliet, from)))
  }

  lemma VolumeReady(v: Volume, root: Dir, from: Counters)
    requires VolumeOk(v, root, from)
    ensures Ready(v.nodes, root) && LevelsOk(Dirs(v.nodes)) && |v.nodes| > 0 && FilesPlaced(v.nodes, from.files)
  {
    hide Ready, LevelsOk, TreeBuilt, TableBuilt, FilesPlaced;
  }

  lemma VolumeTree(v: Volume, root: Dir, from: Counters, joliet: bool)
    requires VolumeOk(v, root, from)
    ensures LevelsOk(Dirs(v.nodes)) && SmallDirs(v.nodes, joliet)
    ensures TreeBuilt(v.nodes, v.Content(joliet), joliet, v.DirsBase(joliet, from), v.FilesBase(from))
  {
    hide Ready, LevelsOk, TreeBuilt, TableBuilt, SmallDirs, FilesPlaced;
  }

  lemma VolumeTable(v: Volume, root: Dir, from: Counters, joliet: bool, msb: bool)
    requires VolumeOk(v, root, from)
    ensures LevelsOk(Dirs(v.nodes)) && TableBuilt(v.nodes, v.Table(joliet, msb), joliet, msb, v.DirsBase(joliet, from))
  {
    hide Ready, LevelsOk, TreeBuilt, TableBuilt, FilesPlaced;
  }

  /** Nothing overflows the 4 MB scratch buffer. */
  ghost predicate FitsScratch(nodes: seq<Node>, joliet: bool)
    requires LevelsOk(Dirs(nodes))
  {
    && (forall d :: 0 <= d < |nodes| ==> Fits(nodes, joliet, d))
    && TablesFit(nodes, joliet)
  }

  ghost predicate TablesFit(nodes: seq<Node>, joliet: bool)
    requires LevelsOk(Dirs(nodes))
  {
    EntriesOk(PathEntries(nodes, joliet, 0, TableCount(nodes))) && TableFits(nodes, joliet, TableCount(nodes))
  }

  /**
   The scratch buffer has 4 MB. The records of a directory must end before its last byte, and every path table entry
   must find room for one of 262 bytes behind those in front of it.
   */
  lemma FitsScratchIs(nodes: seq<Node>, root: Dir, joliet: bool)
    requires Ready(nodes, root) && LevelsOk(Dirs(nodes))
    ensures FitsScratch(nodes, joliet) <==>
      && (forall d :: 0 <= d < |nodes| ==> PackedEnd(nodes[d].dir, joliet) < 4 * 1024 * 1024)
      && (forall d :: 0 <= d < TableCount(nodes) ==> TableLen(Dirs(nodes), joliet, d) + 262 <= 4 * 1024 * 1024)
  {
    hide Ready, PackedEnd, TableLen, TablesFit, LevelOk;
    TableFitsIs(nodes, root, joliet);
    forall d: nat | d < |nodes| ensures Fits(nodes, joliet, d) <==> PackedEnd(nodes[d].dir, joliet) < 4 * 1024 * 1024 {
      assert Dirs(nodes)[d] == nodes[d].dir;
    }
  }

  lemma TableFitsIs(nodes: seq<Node>, root: Dir, joliet: bool)
    requires Ready(nodes, root) && LevelsOk(Dirs(nodes))
    ensures TablesFit(nodes, joliet) <==>
      forall d :: 0 <= d < TableCount(nodes) ==> TableLen(Dirs(nodes), joliet, d) + 262 <= 4 * 1024 * 1024
  {
    hide Ready, LevelsOk, TableLen, Table, EntryOk, PathEntry;
    var n := TableCount(nodes);
    PathEntriesOk(nodes, root, joliet, 0, n);
    var es := PathEntries(nodes, joliet, 0, n);
    if TablesFit(nodes, joliet) {
      forall d | 0 <= d < n ensures TableLen(Dirs(nodes), joliet, d) + 262 <= 4 * 1024 * 1024 {
        TableFront(nodes, root, joliet, d);
        assert |Table(es[..d], false)| + 8 + MAX_ISODIR <= TEMP_BUF_SIZE;
      }
    } else {
      var d: nat :| d < n && |Table(es[..d], false)| + 8 + MAX_ISODIR > TEMP_BUF_SIZE;
      TableFront(nodes, root, joliet, d);
    }
  }

  lemma TableFront(nodes: seq<Node>, root: Dir, joliet: bool, d: nat)
    requires Ready(nodes, root) && LevelsOk(Dirs(nodes)) && d < TableCount(nodes)
    ensures EntriesOk(PathEntries(nodes, joliet, 0, TableCount(nodes))[..d])
    ensures |Table(PathEntries(nodes, joliet, 0, TableCount(nodes))[..d], false)| == TableLen(Dirs(nodes), joliet, d)
  {
    hide Ready, LevelsOk, TableLen, Table, EntriesOk, PathEntry;
    TableLenIs(nodes, root, joliet, 0, false, d);
    assert PathEntries(nodes, joliet, 0, TableCount(nodes))[..d] == PathEntries(nodes, joliet, 0, d);
  }

  // ---------------------------------------------------------------- fixLba

  /** Both trees and the four tables before rebasing, all in separate memory. */
  datatype Buffers = Buffers(content: seq<array<Byte>>, contentJoliet: seq<array<Byte>>,
                         tableL: array<Byte>, tableM: array<Byte>, tableJolietL: array<Byte>, tableJolietM: array<Byte>)
  {
    ghost function Tables(): set<array<Byte>> {
      {tableL, tableM, tableJolietL, tableJolietM}
    }

    ghost predicate Separate() {
      && (forall i, j :: 0 <= i < j < |content| ==> content[i] != content[j])
      && (forall i, j :: 0 <= i < j < |contentJoliet| ==> contentJoliet[i] != contentJoliet[j])
      && (forall i, j :: 0 <= i < |content| && 0 <= j < |contentJoliet| ==> content[i] != contentJoliet[j])
      && (forall t :: t in Tables() ==> t !in content && t !in contentJoliet)
      && tableL != tableM && tableL != tableJolietL && tableL != tableJolietM
      && tableM != tableJolietL && tableM != tableJolietM && tableJolietL != tableJolietM
    }
  }

  ghost function Snapshot(arrays: seq<array<Byte>>): (s: seq<seq<Byte>>)
    reads arrays
    ensures |s| == |arrays| && forall i :: 0 <= i < |arrays| ==> s[i] == arrays[i][..]
  {
    seq(|arrays|, i requires 0 <= i < |arrays| reads arrays => arrays[i][..])
  }

  /** One tree with its first `d` directories rebased and the others as they were. */
  ghost predicate RebasedTo(nodes: seq<Node>, now: seq<seq<Byte>>, joliet: bool, dirLba: U32, filesLba: U32, was: seq<seq<Byte>>, d: nat)
    requires LevelsOk(Dirs(nodes))
  {
    && |now| == |nodes| == |was|
    && (forall e :: 0 <= e < d && e < |nodes| ==> DirOk(nodes, now[e], joliet, dirLba, filesLba, |nodes|, e))
    && (forall e :: d <= e < |nodes| ==> now[e] == was[e])
  }

  /** The loop body for one tree. */
  method FixNext(nodes: seq<Node>, ghost root: Dir, content: seq<array<Byte>>, ghost dirBase: U32, ghost fileBase: U32, joliet: bool,
                 dirLba: U32, filesLba: U32, d: nat, ghost was: seq<seq<Byte>>)
    requires Ready(nodes, root) && LevelsOk(Dirs(nodes)) && TreeBuilt(nodes, was, joliet, dirBase, fileBase) && d < |nodes|
    requires forall i, j :: 0 <= i < j < |content| ==> content[i] != content[j]
    requires RebasedTo(nodes, Snapshot(content), joliet, Wrap32(dirBase + dirLba), Wrap32(fileBase + filesLba), was, d)
    modifies if d < |content| then {content[d]} else {}
    ensures RebasedTo(nodes, Snapshot(content), joliet, Wrap32(dirBase + dirLba), Wrap32(fileBase + filesLba), was, d + 1)
  {
    hide Ready, LevelsOk, DirOk, Wrap32;
    FixDirectory(content[d], nodes, root, dirBase, fileBase, joliet, dirLba, filesLba, d);
  }

  lemma NoneRebased(nodes: seq<Node>, was: seq<seq<Byte>>, joliet: bool, dirLba: U32, filesLba: U32, dirBase: U32, fileBase: U32)
    requires LevelsOk(Dirs(nodes)) && TreeBuilt(nodes, was, joliet, dirBase, fileBase)
    ensures RebasedTo(nodes, was, joliet, dirLba, filesLba, was, 0)
  {
    hide LevelsOk, DirOk;
  }

  lemma AllRebased(nodes: seq<Node>, now: seq<seq<Byte>>, joliet: bool, dirLba: U32, filesLba: U32, was: seq<seq<Byte>>)
    requires LevelsOk(Dirs(nodes)) && RebasedTo(nodes, now, joliet, dirLba, filesLba, was, |nodes|)
    ensures TreeBuilt(nodes, now, joliet, dirLba, filesLba)
  {
    hide LevelsOk, DirOk;
  }

  /** The loop body: directory `d` of both trees. */
  method FixPair(nodes: seq<Node>, ghost root: Dir, p: Buffers, ghost from: Counters, isoLba: U32, jolietLba: U32, filesLba: U32, d: nat,
                 ghost a: seq<seq<Byte>>, ghost b: seq<seq<Byte>>)
    requires Ready(nodes, root) && LevelsOk(Dirs(nodes)) && p.Separate() && d < |nodes|
    requires TreeBuilt(nodes, a, false, from.dirs, from.files) && TreeBuilt(nodes, b, true, from.dirsJoliet, from.files)
    requires RebasedTo(nodes, Snapshot(p.content), false, Wrap32(from.dirs + isoLba), Wrap32(from.files + filesLba), a, d)
    requires RebasedTo(nodes, Snapshot(p.contentJoliet), true, Wrap32(from.dirsJoliet + jolietLba), Wrap32(from.files + filesLba), b, d)
    modifies p.content, p.contentJoliet
    ensures RebasedTo(nodes, Snapshot(p.content), false, Wrap32(from.dirs + isoLba), Wrap32(from.files + filesLba), a, d + 1)
    ensures RebasedTo(nodes, Snapshot(p.contentJoliet), true, Wrap32(from.dirsJoliet + jolietLba), Wrap32(from.files + filesLba), b, d + 1)
  {
    hide Ready, LevelsOk, RebasedTo, TreeBuilt, Wrap32;
    ghost var other := Snapshot(p.contentJoliet);
    FixNext(nodes, root, p.content, from.dirs, from.files, false, isoLba, filesLba, d, a);
    assert Snapshot(p.contentJoliet) == other;
    ghost var done := Snapshot(p.content);
    FixNext(nodes, root, p.contentJoliet, from.dirsJoliet, from.files, true, jolietLba, filesLba, d, b);
    assert Snapshot(p.content) == done;
  }

  method FixTrees(nodes: seq<Node>, ghost root: Dir, p: Buffers, ghost from: Counters, isoLba: U32, jolietLba: U32, filesLba: U32)
    requires Ready(nodes, root) && LevelsOk(Dirs(nodes)) && p.Separate()
    requires TreeBuilt(nodes, Snapshot(p.content), false, from.dirs, from.files)
    requires TreeBuilt(nodes, Snapshot(p.contentJoliet), true, from.dirsJoliet, from.files)
    modifies p.content, p.contentJoliet
    ensures TreeBuilt(nodes, Snapshot(p.content), false, Wrap32(from.dirs + isoLba), Wrap32(from.files + filesLba))
    ensures TreeBuilt(nodes, Snapshot(p.contentJoliet), true, Wrap32(from.dirsJoliet + jolietLba), Wrap32(from.files + filesLba))
  {
    hide Ready, LevelsOk, RebasedTo, TreeBuilt, Wrap32;
    ghost var iso, jol, files := Wrap32(from.dirs + isoLba), Wrap32(from.dirsJoliet + jolietLba), Wrap32(from.files + filesLba);
    ghost var a, b := Snapshot(p.content), Snapshot(p.contentJoliet);
    NoneRebased(nodes, a, false, iso, files, from.dirs, from.files);
    NoneRebased(nodes, b, true, jol, files, from.dirsJoliet, from.files);
    var d := 0;
    while d < |nodes|
      invariant d <= |nodes|
      invariant RebasedTo(nodes, Snapshot(p.content), false, iso, files, a, d)
      invariant RebasedTo(nodes, Snapshot(p.contentJoliet), true, jol, files, b, d)
    {
      FixPair(nodes, root, p, from, isoLba, jolietLba, filesLba, d, a, b);
      d := d + 1;
    }
    AllRebased(nodes, Snapshot(p.content), false, iso, files, a);
    AllRebased(nodes, Snapshot(p.contentJoliet), true, jol, files, b);
  }

  method FixTable(table: array<Byte>, nodes: seq<Node>, ghost root: Dir, ghost dirBase: U32, joliet: bool, msb: bool, dirLba: U32)
    requires Ready(nodes, root) && LevelsOk(Dirs(nodes)) && TableBuilt(nodes, table[..], joliet, msb, dirBase)
    modifies table
    ensures TableBuilt(nodes, table[..], joliet, msb, Wrap32(dirBase + dirLba))
  {
    hide Ready, LevelsOk, Table, EntriesOk, PathEntries, RebaseAll, Wrap32;
    ghost var es := PathEntries(nodes, joliet, dirBase, TableCount(nodes));
    PathRebased(nodes, root, joliet, dirBase, dirLba, TableCount(nodes));
    PathEntriesOk(nodes, root, joliet, Wrap32(dirBase + dirLba), TableCount(nodes));
    FixPathTableLba(table, dirLba, msb, es);
  }

  /** Both trees and the four tables, with the three areas starting at the given sectors. */
  ghost predicate BuiltAt(nodes: seq<Node>, p: Buffers, isoLba: U32, jolietLba: U32, filesLba: U32)
    requires LevelsOk(Dirs(nodes))
    reads p.content, p.contentJoliet, p.Tables()
  {
    && TreeBuilt(nodes, Snapshot(p.content), false, isoLba, filesLba)
    && TreeBuilt(nodes, Snapshot(p.contentJoliet), true, jolietLba, filesLba)
    && TableBuilt(nodes, p.tableL[..], false, false, isoLba) && TableBuilt(nodes, p.tableM[..], false, true, isoLba)
    && TableBuilt(nodes, p.tableJolietL[..], true, false, jolietLba) && TableBuilt(nodes, p.tableJolietM[..], true, true, jolietLba)
  }

  /** `fixLba`: every record and every table entry moves to its final sector. */
  method FixLba(nodes: seq<Node>, ghost root: Dir, p: Buffers, ghost from: Counters, isoLba: U32, jolietLba: U32, filesLba: U32)
    requires Ready(nodes, root) && LevelsOk(Dirs(nodes)) && p.Separate() && BuiltAt(nodes, p, from.dirs, from.dirsJoliet, from.files)
    modifies p.content, p.contentJoliet, p.Tables()
    ensures BuiltAt(nodes, p, Wrap32(from.dirs + isoLba), Wrap32(from.dirsJoliet + jolietLba), Wrap32(from.files + filesLba))
  {
    hide Ready, LevelsOk, TreeBuilt, TableBuilt, Wrap32;
    FixTrees(nodes, root, p, from, isoLba, jolietLba, filesLba);
    ghost var a, b := Snapshot(p.content), Snapshot(p.contentJoliet);
    FixTable(p.tableL, nodes, root, from.dirs, false, false, isoLba);
    FixTable(p.tableM, nodes, root, from.dirs, false, true, isoLba);
    FixTable(p.tableJolietL, nodes, root, from.dirsJoliet, true, false, jolietLba);
    FixTable(p.tableJolietM, nodes, root, from.dirsJoliet, true, true, jolietLba);
    assert Snapshot(p.content) == a && Snapshot(p.contentJoliet) == b;
  }

  // ---------------------------------------------------------------- build

  ghost function VolumeOf(nodes: seq<Node>, p: Buffers): Volume
    reads p.content, p.contentJoliet, p.Tables()
  {
    Volume(nodes, Snapshot(p.content), Snapshot(p.contentJoliet), p.tableL[..], p.tableM[..], p.tableJolietL[..], p.tableJolietM[..])
  }

  lemma DirsAreSmall(nodes: seq<Node>, joliet: bool)
    requires LevelsOk(Dirs(nodes)) && forall d :: 0 <= d < |nodes| ==> Fits(nodes, joliet, d)
    ensures SmallDirs(nodes, joliet)
  {
    hide PackedEnd, RoundUp, LevelOk;
    forall d | 0 <= d < |nodes| ensures DirSize(Dirs(nodes)[d], joliet) <= TEMP_BUF_SIZE {
      assert Fits(nodes, joliet, d);
      RoundUpFits(PackedEnd(Dirs(nodes)[d], joliet));
    }
  }

  lemma SnapshotBuilt(nodes: seq<Node>, content: seq<array<Byte>>, joliet: bool, dirBase: U32, fileBase: U32)
    requires |content| == |nodes| && ContentOk(nodes, content, joliet, dirBase, fileBase, |nodes|)
    ensures LevelsOk(Dirs(nodes)) && TreeBuilt(nodes, Snapshot(content), joliet, dirBase, fileBase)
  {
    hide NodeRecs, Packed, LevelsOk;
  }

  /** The four path tables of two finished trees. */
  method BuildTables(buf: array<Byte>, nodes: seq<Node>, ghost root: Dir, content: seq<array<Byte>>, contentJoliet: seq<array<Byte>>,
                     ghost from: Counters)
    returns (ok: bool, p: Buffers)
    requires Ready(nodes, root) && LevelsOk(Dirs(nodes)) && buf.Length == TEMP_BUF_SIZE
    requires buf !in content && buf !in contentJoliet
    requires |content| == |nodes| && ContentOk(nodes, content, false, from.dirs, from.files, |nodes|)
    requires |contentJoliet| == |nodes| && ContentOk(nodes, contentJoliet, true, from.dirsJoliet, from.files, |nodes|)
    modifies buf
    ensures p.content == content && p.contentJoliet == contentJoliet
    ensures fresh(p.Tables())
    ensures p.tableL != p.tableM && p.tableL != p.tableJolietL && p.tableL != p.tableJolietM
    ensures p.tableM != p.tableJolietL && p.tableM != p.tableJolietM && p.tableJolietL != p.tableJolietM
    ensures ok <==> TablesFit(nodes, false) && TablesFit(nodes, true)
    ensures ok ==> BuiltAt(nodes, p, from.dirs, from.dirsJoliet, from.files)
  {
    hide Ready, LevelsOk, TableFits, EntriesOk, TreeBuilt, PathEntries, Table, DirOk;
    var okL, tableL := BuildPathTable(buf, nodes, root, content, from.dirs, from.files, false, false);
    var okM, tableM := BuildPathTable(buf, nodes, root, content, from.dirs, from.files, true, false);
    var okJL, tableJolietL := BuildPathTable(buf, nodes, root, contentJoliet, from.dirsJoliet, from.files, false, true);
    var okJM, tableJolietM := BuildPathTable(buf, nodes, root, contentJoliet, from.dirsJoliet, from.files, true, true);
    p := Buffers(content, contentJoliet, tableL, tableM, tableJolietL, tableJolietM);
    ok := okL && okM && okJL && okJM;
    SnapshotBuilt(nodes, content, false, from.dirs, from.files);
    SnapshotBuilt(nodes, contentJoliet, true, from.dirsJoliet, from.files);
  }

  /** Both trees and their tables, still with relative sector numbers; the counts as far as they got. */
  method BuildBuffers(buf: array<Byte>, nodes: seq<Node>, ghost root: Dir, from: Counters, filesSizeSectors: U32)
    returns (built: Option<Buffers>, to: Counters)
    requires Ready(nodes, root) && LevelsOk(Dirs(nodes)) && FilesPlaced(nodes, from.files) && buf.Length == TEMP_BUF_SIZE
    requires filesSizeSectors == Wrap32(from.files + FilesBefore(Dirs(nodes), |nodes|))
    modifies buf
    ensures built.Some? <==> FitsScratch(nodes, false) && FitsScratch(nodes, true)
    ensures built.Some? ==>
              && (forall e :: 0 <= e < |built.value.content| ==> fresh(built.value.content[e]))
              && (forall e :: 0 <= e < |built.value.contentJoliet| ==> fresh(built.value.contentJoliet[e]))
              && fresh(built.value.Tables())
              && built.value.Separate() && BuiltAt(nodes, built.value, from.dirs, from.dirsJoliet, from.files)
    ensures to == CountersAfter(nodes, from)
  {
    hide Ready, LevelsOk, Fits, TablesFit, BuiltAt, DirOk, RelStart, Wrap32, FilesPlaced, FilesBefore;
    built := None;
    to := Counters(filesSizeSectors, from.dirs, from.dirsJoliet);
    ReachedAll(nodes, false);
    ReachedAll(nodes, true);
    var ok, content, sectors := BuildTree(buf, nodes, root, false, from.dirs, from.files);
    to := to.(dirs := sectors);
    if !ok {
      return;
    }
    var ok', contentJoliet, sectorsJoliet := BuildTree(buf, nodes, root, true, from.dirsJoliet, from.files);
    to := to.(dirsJoliet := sectorsJoliet);
    if !ok' {
      return;
    }
    var ok'', p := BuildTables(buf, nodes, root, content, contentJoliet, from);
    if !ok'' {
      to := FRESH;
      return;
    }
    built := Some(p);
  }

  /**
   The counts when `build` returns. A directory that does not fit leaves them where they were;
   only a path table that does not fit resets the object.
   */
  ghost function CountersAfter(nodes: seq<Node>, from: Counters): Counters
    requires LevelsOk(Dirs(nodes))
  {
    ReachedAll(nodes, false);
    ReachedAll(nodes, true);
    var ds, n, m := Dirs(nodes), Reached(nodes, false, 0), Reached(nodes, true, 0);
    var to := Counters(Wrap32(from.files + FilesBefore(ds, |ds|)), Wrap32(from.dirs + RelStart(ds, false, n)), from.dirsJoliet);
    if n < |nodes| then to
    else if m == |nodes| && !(TablesFit(nodes, false) && TablesFit(nodes, true)) then FRESH
    else to.(dirsJoliet := Wrap32(from.dirsJoliet + RelStart(ds, true, m)))
  }

  /**
   `build`: list the directories, place the files, build both trees and four tables, rebase
   everything. `from` and `to` are the running counts before and afterwards.
   */
  method Build(buf: array<Byte>, root: Dir, from: Counters) returns (nodes: seq<Node>, built: Option<Buffers>, to: Counters)
    requires TreeOk(root) && buf.Length == TEMP_BUF_SIZE
    modifies buf
    ensures Ready(nodes, root) && LevelsOk(Dirs(nodes)) && Dirs(nodes) == BreadthFirst(root)
    ensures built.Some? <==> FitsScratch(nodes, false) && FitsScratch(nodes, true)
    ensures built.Some? ==> built.value.Separate() && VolumeOk(VolumeOf(nodes, built.value), root, from)
    ensures to == CountersAfter(nodes, from)
  {
    hide Ready, LevelsOk, Listed, TreeOk, FitsScratch, BuiltAt, RelStart, FilesBefore, Wrap32, BytesToSectors, FilesPlaced, VolumeOk, CountersAfter;
    var list := ListDirectories(root);
    TreeLevels(root);
    var filesSizeSectors;
    nodes, filesSizeSectors := PlaceFiles(list, from.files);
    ListKept(list, nodes, root);
    built, to := BuildBuffers(buf, nodes, root, from, filesSizeSectors);
    if built.Some? {
      var p := built.value;
      AllCounted(nodes, from);
      var isoLba := Wrap32(20 + 2 * BytesToSectors(p.tableL.Length) as int + 2 * BytesToSectors(p.tableJolietL.Length) as int);
      var jolietLba := Wrap32(isoLba + to.dirs);
      var filesLba := Wrap32(jolietLba + to.dirsJoliet);
      FixLba(nodes, root, p, from, isoLba, jolietLba, filesLba);
      BuiltIsVolume(nodes, root, p, from, isoLba, jolietLba, filesLba);
    }
  }

  function AllBuilt(ds: seq<Dir>, from: Counters): Counters
    requires LevelsOk(ds)
  {
    Counters(Wrap32(from.files + FilesBefore(ds, |ds|)), Wrap32(from.dirs + RelStart(ds, false, |ds|)),
             Wrap32(from.dirsJoliet + RelStart(ds, true, |ds|)))
  }

  /** After a success every count has grown by what was built. */
  lemma AllCounted(nodes: seq<Node>, from: Counters)
    requires LevelsOk(Dirs(nodes)) && FitsScratch(nodes, false) && FitsScratch(nodes, true)
    ensures CountersAfter(nodes, from) == AllBuilt(Dirs(nodes), from)
  {
    hide LevelsOk, Fits, TablesFit, RelStart, Wrap32, FilesBefore;
    ReachedAll(nodes, false);
    ReachedAll(nodes, true);
  }

  lemma BuiltIsVolume(nodes: seq<Node>, root: Dir, p: Buffers, from: Counters, isoLba: U32, jolietLba: U32, filesLba: U32)
    requires Ready(nodes, root) && LevelsOk(Dirs(nodes)) && |nodes| > 0 && FilesPlaced(nodes, from.files)
    requires BuiltAt(nodes, p, Wrap32(from.dirs + isoLba), Wrap32(from.dirsJoliet + jolietLba), Wrap32(from.files + filesLba))
    requires FitsScratch(nodes, false) && FitsScratch(nodes, true)
    requires isoLba == Wrap32(20 + 2 * BytesToSectors(p.tableL.Length) as int + 2 * BytesToSectors(p.tableJolietL.Length) as int)
    requires jolietLba == Wrap32(isoLba + Wrap32(from.dirs + RelStart(Dirs(nodes), false, |nodes|)))
    requires filesLba == Wrap32(jolietLba + Wrap32(from.dirsJoliet + RelStart(Dirs(nodes), true, |nodes|)))
    ensures VolumeOk(VolumeOf(nodes, p), root, from)
  {
    hide Ready, LevelsOk, TreeBuilt, TableBuilt, Fits, RelStart, Wrap32, BytesToSectors, EntriesOk, TableFits, SmallDirs, FilesPlaced;
    DirsAreSmall(nodes, false);
    DirsAreSmall(nodes, true);
  }

  /** Placing files leaves the links of the list alone. */
  lemma ListKept(list: seq<Node>, nodes: seq<Node>, root: Dir)
    requires Listed(list, root) && |nodes| == |list| && LevelsOk(Dirs(list))
    requires forall d :: 0 <= d < |nodes| ==> nodes[d] == list[d].(files := nodes[d].files)
    ensures Dirs(nodes) == Dirs(list) && Ready(nodes, root) && LevelsOk(Dirs(nodes)) && |nodes| > 0
  {
    hide LevelOk, ChildStart, FileNodes;
    var ds := Dirs(list);
    assert Dirs(nodes) == ds;
    forall k | 0 <= k < |nodes| ensures NodeLinked(nodes[k], ds, |nodes|, 0, k) {
      assert NodeLinked(list[k], ds, |list|, 0, k);
    }
  }
}
