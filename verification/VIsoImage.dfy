/** The image a volume is served as: metadata, sector-padded files in list order, zeros. */
module VIsoImage {
  import opened Bytes
  import opened DirRecords
  import opened PathTables
  import opened FolderTree
  import opened DirList
  import opened DirContent
  import opened DirLinks
  import opened DirBuild
  import opened VIsoTables
  import opened VIso

  function Concat(cs: seq<seq<Byte>>, n: nat): seq<Byte>
    requires n <= |cs|
  {
    if n == 0 then [] else Concat(cs, n - 1) + cs[n - 1]
  }

  function FilesBytes(files: seq<File>, n: nat): (s: seq<Byte>)
    requires n <= |files|
    ensures |s| == 2048 * FilesSectors(files, n)
  {
    if n == 0 then [] else FilesBytes(files, n - 1) + Padded(files[n - 1].data)
  }

  /** The file area: every file of the first `n` directories, each padded to whole sectors. */
  function FileArea(ds: seq<Dir>, n: nat): (s: seq<Byte>)
    requires n <= |ds|
    ensures |s| == 2048 * FilesBefore(ds, n)
  {
    if n == 0 then [] else FileArea(ds, n - 1) + FilesBytes(ds[n - 1].files, |ds[n - 1].files|)
  }

  // ---------------------------------------------------------------- volume descriptors

  type Sector = s: seq<Byte> | |s| == 2048 witness Zeros(2048)

  /** Text, dates and PS3 identification, which the layout does not depend on. */
  datatype Labels = Labels(ps3Mode: bool, info: Sector, isoText: Sector, jolietText: Sector)

  const CD001: seq<Byte> := [67, 68, 48, 48, 49]

  /** A volume descriptor: the layout fields written over its text. */
  function Descriptor(text: Sector, kind: Byte, volumeSize: U32, tableSize: U32, tableL: U32, tableM: U32, root: seq<Byte>): Sector
    requires |root| >= 34
  {
    var s := Splice(text, 0, [kind] + CD001 + [1]);
    var s := Splice(s, 0x50, Both32(volumeSize));
    var s := Splice(s, 0x78, [1, 0, 0, 1, 1, 0, 0, 1, 0, 8, 8, 0]);
    var s := Splice(s, 0x84, Both32(tableSize));
    var s := Splice(s, 0x8C, Le32(tableL));
    var s := Splice(s, 0x94, Be32(tableM));
    Splice(s, 0x9C, [34] + root[1..34])
  }

  lemma DescriptorRoot(text: Sector, kind: Byte, volumeSize: U32, tableSize: U32, tableL: U32, tableM: U32, root: seq<Byte>)
    requires |root| >= 34
    ensures Descriptor(text, kind, volumeSize, tableSize, tableL, tableM, root)[0x9C..0xBE] == [34] + root[1..34]
  {
    hide Both32, Le32, Be32, Splice;
  }

  /** The sixteen system sectors; in PS3 mode the first lists one plain range over the whole disc. */
  function SystemArea(labels: Labels, volumeSize: U32): (s: seq<Byte>)
    ensures |s| == 0x8000
  {
    if labels.ps3Mode then
      (Be32(1) + Zeros(4) + Be32(0) + Be32(Wrap32(volumeSize - 1)) + Zeros(2032)) + labels.info + Zeros(14 * 2048)
    else
      Zeros(0x8000)
  }

  function Terminator(): Sector {
    [0xFF] + CD001 + Zeros(2042)
  }

  // ---------------------------------------------------------------- sizes

  /**
   Sectors of metadata, and of the whole volume without the padding at its end. The program takes
   them from the running counts, which include what these held when `build` began.
   */
  function FsSectors(ds: seq<Dir>, from: Counters := FRESH): nat
    requires LevelsOk(ds)
  {
    var n := Min(|ds|, 65536);
    20 + 2 * Sectors(TableLen(ds, false, n)) + 2 * Sectors(TableLen(ds, true, n))
    + (from.dirs + RelStart(ds, false, |ds|)) + (from.dirsJoliet + RelStart(ds, true, |ds|))
  }

  function VolumeSectors(ds: seq<Dir>, from: Counters := FRESH): nat
    requires LevelsOk(ds)
  {
    FsSectors(ds, from) + (from.files + FilesBefore(ds, |ds|))
  }

  /** Padding behind the files: at least 32 sectors, and enough to reach a multiple of 32. */
  function PadSectors(volumeSize: nat): nat {
    0x20 + if volumeSize % 0x20 != 0 then 0x20 - volumeSize % 0x20 else 0
  }

  lemma PadBounds(volumeSize: nat)
    ensures 32 <= PadSectors(volumeSize) <= 63
    ensures (volumeSize + PadSectors(volumeSize)) % 32 == 0
  {
  }

  /** Every sector number of the image fits 32 bits. */
  predicate SectorsFit(ds: seq<Dir>, from: Counters := FRESH)
    requires LevelsOk(ds)
  {
    VolumeSectors(ds, from) + 64 <= 0x1_0000_0000
  }

  // ---------------------------------------------------------------- the served image

  function TotalSectors(ds: seq<Dir>, from: Counters := FRESH): nat
    requires LevelsOk(ds)
  {
    VolumeSectors(ds, from) + PadSectors(VolumeSectors(ds, from))
  }

  /** Both root directories exist and are long enough to be copied into the descriptors. */
  ghost predicate Rooted(v: Volume) {
    && LevelsOk(Dirs(v.nodes))
    && |v.content| > 0 && |v.contentJoliet| > 0 && |v.content[0]| >= 34 && |v.contentJoliet[0]| >= 34
  }

  function IsoDescriptor(v: Volume, text: Sector, size: U32): Sector
    requires |v.content| > 0 && |v.content[0]| >= 34
  {
    Descriptor(text, 1, size, Wrap32(|v.tableL|), 20, Wrap32(20 + BytesToSectors(|v.tableL|) as int), v.content[0])
  }

  function JolietDescriptor(v: Volume, text: Sector, size: U32): Sector
    requires |v.contentJoliet| > 0 && |v.contentJoliet[0]| >= 34
  {
    var at := 20 + 2 * BytesToSectors(|v.tableL|) as int;
    Descriptor(text, 2, size, Wrap32(|v.tableJolietL|), Wrap32(at), Wrap32(at + BytesToSectors(|v.tableJolietL|)), v.contentJoliet[0])
  }

  /** The twenty sectors in front of the path tables. */
  function Head(v: Volume, labels: Labels, from: Counters := FRESH): (s: seq<Byte>)
    requires Rooted(v)
    ensures |s| == 20 * 2048
  {
    var size := Wrap32(TotalSectors(Dirs(v.nodes), from));
    SystemArea(labels, size) + IsoDescriptor(v, labels.isoText, size) + JolietDescriptor(v, labels.jolietText, size)
    + Terminator() + Zeros(2048)
  }

  function TablesBytes(v: Volume): seq<Byte> {
    Padded(v.tableL) + Padded(v.tableM) + Padded(v.tableJolietL) + Padded(v.tableJolietM)
  }

  /** What `write` puts into the buffer, one thing behind the other. */
  function Written(v: Volume, labels: Labels, from: Counters := FRESH): seq<Byte>
    requires Rooted(v)
  {
    Head(v, labels, from) + TablesBytes(v) + Concat(v.content, |v.content|) + Concat(v.contentJoliet, |v.contentJoliet|)
  }

  /** Contents of `fsBuf`: the sectors counted before `build` began stay empty at its end. */
  function FsBytes(v: Volume, labels: Labels, from: Counters := FRESH): seq<Byte>
    requires Rooted(v)
  {
    Written(v, labels, from) + Zeros(from.Slack())
  }

  function Image(v: Volume, labels: Labels, from: Counters := FRESH): seq<Byte>
    requires Rooted(v)
  {
    var ds := Dirs(v.nodes);
    FsBytes(v, labels, from) + Zeros(from.Gap()) + FileArea(ds, |ds|) + Zeros(PadSectors(VolumeSectors(ds, from)) * 2048)
  }

  // ---------------------------------------------------------------- where things lie

  lemma {:induction false} ConcatAt(cs: seq<seq<Byte>>, n: nat, e: nat)
    requires e < n <= |cs|
    ensures |Concat(cs, e)| + |cs[e]| <= |Concat(cs, n)|
    ensures Concat(cs, n)[|Concat(cs, e)|..|Concat(cs, e)| + |cs[e]|] == cs[e]
  {
    if e + 1 < n {
      ConcatAt(cs, n - 1, e);
      assert Concat(cs, n)[|Concat(cs, e)|..|Concat(cs, e)| + |cs[e]|] == Concat(cs, n - 1)[|Concat(cs, e)|..|Concat(cs, e)| + |cs[e]|];
    }
  }

  lemma {:induction false} FilesBytesAt(files: seq<File>, n: nat, f: nat)
    requires f < n <= |files|
    ensures 2048 * FilesSectors(files, f) + |Padded(files[f].data)| <= |FilesBytes(files, n)|
    ensures var p := 2048 * FilesSectors(files, f); FilesBytes(files, n)[p..p + |Padded(files[f].data)|] == Padded(files[f].data)
  {
    hide Padded, RoundUp, Sectors;
    var p, q := 2048 * FilesSectors(files, f), |Padded(files[f].data)|;
    if f + 1 < n {
      FilesBytesAt(files, n - 1, f);
      assert FilesBytes(files, n)[p..p + q] == FilesBytes(files, n - 1)[p..p + q];
    }
  }

  lemma {:induction false} FileAreaAt(ds: seq<Dir>, n: nat, d: nat)
    requires d < n <= |ds|
    ensures var p, s := 2048 * FilesBefore(ds, d), FilesBytes(ds[d].files, |ds[d].files|);
      p + |s| <= |FileArea(ds, n)| && FileArea(ds, n)[p..p + |s|] == s
  {
    hide FilesBytes, FilesSectors;
    var p, s := 2048 * FilesBefore(ds, d), FilesBytes(ds[d].files, |ds[d].files|);
    if d + 1 < n {
      FileAreaAt(ds, n - 1, d);
      assert FileArea(ds, n)[p..p + |s|] == FileArea(ds, n - 1)[p..p + |s|];
    }
  }

  /** File `f` of directory `d` starts at its sector of the file area. */
  lemma FileAt(ds: seq<Dir>, d: nat, f: nat)
    requires d < |ds| && f < |ds[d].files|
    ensures var p, s := 2048 * (FilesBefore(ds, d) + FilesSectors(ds[d].files, f)), Padded(ds[d].files[f].data);
      p + |s| <= |FileArea(ds, |ds|)| && FileArea(ds, |ds|)[p..p + |s|] == s
  {
    hide FilesBytes, FilesSectors, FileArea, Padded, FilesBefore;
    FileAreaAt(ds, |ds|, d);
    FilesBytesAt(ds[d].files, |ds[d].files|, f);
    var p, q := 2048 * FilesBefore(ds, d), 2048 * FilesSectors(ds[d].files, f);
    SliceOfSlice(FileArea(ds, |ds|), p, p + |FilesBytes(ds[d].files, |ds[d].files|)|, q, q + |Padded(ds[d].files[f].data)|);
  }

  lemma MiddleSlice(a: seq<Byte>, m: seq<Byte>, z: seq<Byte>, lo: nat, hi: nat)
    requires lo <= hi <= |m|
    ensures (a + m + z)[|a| + lo..|a| + hi] == m[lo..hi]
  {
  }

  lemma SectorsOfPadded(s: seq<Byte>)
    ensures |Padded(s)| == 2048 * Sectors(|s|)
  {
  }

  /** The sizes the layout reckons with. */
  ghost predicate Sized(v: Volume) {
    && LevelsOk(Dirs(v.nodes)) && |v.nodes| > 0
    && (forall joliet :: TreeSized(v.nodes, v.Content(joliet), joliet))
    && (forall joliet, msb :: |v.Table(joliet, msb)| == TableLen(Dirs(v.nodes), joliet, Min(|v.nodes|, 65536)))
  }

  ghost predicate TreeSized(nodes: seq<Node>, content: seq<seq<Byte>>, joliet: bool)
    requires LevelsOk(Dirs(nodes))
  {
    |content| == |nodes| && forall e :: 0 <= e < |nodes| ==> |content[e]| == DirSize(Dirs(nodes)[e], joliet) <= TEMP_BUF_SIZE
  }

  lemma VolumeSized(v: Volume, root: Dir, from: Counters)
    requires VolumeOk(v, root, from)
    ensures Sized(v)
  {
    hide VolumeOk, LevelsOk, TreeBuilt, Table, PathEntries, EntriesOk, TableLen, Ready, DirSize, DirOk, TreeSized, SmallDirs, FilesPlaced, Wrap32;
    VolumeReady(v, root, from);
    forall joliet ensures TreeSized(v.nodes, v.Content(joliet), joliet) {
      VolumeTree(v, root, from, joliet);
      TreeIsSized(v.nodes, v.Content(joliet), joliet, v.DirsBase(joliet, from), v.FilesBase(from));
    }
    forall joliet, msb ensures |v.Table(joliet, msb)| == TableLen(Dirs(v.nodes), joliet, Min(|v.nodes|, 65536)) {
      VolumeTable(v, root, from, joliet, msb);
      TableLenIs(v.nodes, root, joliet, v.DirsBase(joliet, from), msb, TableCount(v.nodes));
    }
  }

  lemma TreeIsSized(nodes: seq<Node>, content: seq<seq<Byte>>, joliet: bool, dirBase: U32, fileBase: U32)
    requires LevelsOk(Dirs(nodes)) && TreeBuilt(nodes, content, joliet, dirBase, fileBase) && SmallDirs(nodes, joliet)
    ensures TreeSized(nodes, content, joliet)
  {
    hide LevelOk, NodeRecs, RoundUp, Laid, End, PackedEnd, RecsOk, Lens;
    forall e | 0 <= e < |nodes| ensures |content[e]| == DirSize(Dirs(nodes)[e], joliet) <= TEMP_BUF_SIZE {
      assert DirOk(nodes, content[e], joliet, dirBase, fileBase, |nodes|, e);
      NodeRecsLens(nodes, joliet, dirBase, fileBase, |nodes|, e);
    }
  }

  lemma DirSizeWhole(dir: Dir, joliet: bool)
    requires LevelOk(dir)
    ensures DirSize(dir, joliet) == 2048 * Sectors(DirSize(dir, joliet)) && DirSize(dir, joliet) > 34
  {
    hide LevelOk, Shape, Lens, RecsOk;
    WholeSectors(PackedEnd(dir, joliet));
    ShapeOk(dir, joliet);
    ShapeLong(dir, joliet);
  }

  lemma ShapeOk(dir: Dir, joliet: bool)
    requires LevelOk(dir)
    ensures RecsOk(Shape(dir, joliet))
  {
    hide LevelOk, RecList, RecsOk;
    RecListOk(dir, dir.time, joliet, NOWHERE, NOWHERE, seq(|dir.files|, _ => 0), seq(|dir.subdirs|, _ => NOWHERE));
  }

  lemma ShapeLong(dir: Dir, joliet: bool)
    requires RecsOk(Shape(dir, joliet))
    ensures End(Lens(Shape(dir, joliet))) > 34
  {
    hide RecList;
    EndBound(Lens(Shape(dir, joliet)), 0);
  }

  lemma WholeSectors(n: nat)
    ensures RoundUp(n) == 2048 * Sectors(RoundUp(n))
  {
  }

  lemma SizedAt(v: Volume, joliet: bool, e: nat)
    requires Sized(v) && e < |v.nodes|
    ensures LevelsOk(Dirs(v.nodes)) && LevelOk(Dirs(v.nodes)[e])
    ensures |v.Content(joliet)| == |v.nodes|
    ensures |v.Content(joliet)[e]| == DirSize(Dirs(v.nodes)[e], joliet) == 2048 * Sectors(DirSize(Dirs(v.nodes)[e], joliet))
    ensures 34 < |v.Content(joliet)[e]| <= TEMP_BUF_SIZE
  {
    hide LevelOk, DirSize, TableLen;
    assert LevelOk(Dirs(v.nodes)[e]);
    assert TreeSized(v.nodes, v.Content(joliet), joliet);
    DirSizeWhole(Dirs(v.nodes)[e], joliet);
  }

  lemma SizedRoots(v: Volume)
    requires Sized(v)
    ensures Rooted(v)
  {
    hide LevelOk, DirSize, TableLen;
    SizedAt(v, false, 0);
    SizedAt(v, true, 0);
  }

  lemma {:induction false} TreeLength(v: Volume, joliet: bool, e: nat)
    requires Sized(v) && LevelsOk(Dirs(v.nodes)) && e <= |v.nodes|
    ensures |v.Content(joliet)| == |v.nodes| && |Concat(v.Content(joliet), e)| == 2048 * RelStart(Dirs(v.nodes), joliet, e)
  {
    hide Sized, DirSize, Sectors, LevelOk;
    if e > 0 {
      TreeLength(v, joliet, e - 1);
      SizedAt(v, joliet, e - 1);
    } else {
      SizedNonempty(v, joliet);
    }
  }

  lemma SizedNonempty(v: Volume, joliet: bool)
    requires Sized(v)
    ensures |v.nodes| > 0 && |v.Content(joliet)| == |v.nodes|
  {
    SizedAt(v, joliet, 0);
  }

  lemma TableSizes(v: Volume, joliet: bool, msb: bool)
    requires Sized(v)
    ensures |v.Table(joliet, msb)| == TableLen(Dirs(v.nodes), joliet, Min(|v.nodes|, 65536))
  {
    hide TableLen, LevelsOk, TreeSized;
  }

  /** First sector of a tree of directories, without truncation. */
  function TreeStart(ds: seq<Dir>, joliet: bool): nat
    requires LevelsOk(ds)
  {
    var n := Min(|ds|, 65536);
    20 + 2 * Sectors(TableLen(ds, false, n)) + 2 * Sectors(TableLen(ds, true, n)) + if joliet then RelStart(ds, false, |ds|) else 0
  }

  lemma SmallWraps(a: nat, b: nat)
    requires 20 + 2 * a + 2 * b < 0x1_0000_0000
    ensures Wrap32(20 + 2 * Wrap32(a) as int + 2 * Wrap32(b) as int) == 20 + 2 * a + 2 * b
  {
  }

  lemma SumWraps(a: U32, b: nat)
    requires a + b < 0x1_0000_0000
    ensures Wrap32(a + Wrap32(b)) == Wrap32(a + b) == a + b
  {
  }

  /**
   When all sectors fit 32 bits, no sector number the builder computes is truncated. Sectors
   counted beforehand shift the Joliet tree and the files, and they shift the records of
   either tree once more.
   */
  lemma NothingWraps(v: Volume, from: Counters)
    requires Sized(v) && LevelsOk(Dirs(v.nodes)) && SectorsFit(Dirs(v.nodes), from)
    ensures v.DirsLba(false, from) == TreeStart(Dirs(v.nodes), false)
    ensures v.DirsLba(true, from) == TreeStart(Dirs(v.nodes), true) + from.dirs
    ensures v.FilesLba(from) == FsSectors(Dirs(v.nodes), from)
  {
    hide Sized, LevelsOk, RelStart, TableLen, FilesBefore, Wrap32, Sectors;
    var ds := Dirs(v.nodes);
    TableSizes(v, false, false);
    TableSizes(v, true, false);
    var n := Min(|ds|, 65536);
    SmallWraps(Sectors(TableLen(ds, false, n)), Sectors(TableLen(ds, true, n)));
    SumWraps(v.IsoLba(), from.dirs + RelStart(ds, false, |ds|));
    SumWraps(v.DirsLba(true, from), from.dirsJoliet + RelStart(ds, true, |ds|));
  }

  /** So the records of a tree begin at its first sector plus what was counted beforehand, for Joliet in both counts. */
  lemma BasesAre(v: Volume, from: Counters)
    requires Sized(v) && LevelsOk(Dirs(v.nodes)) && SectorsFit(Dirs(v.nodes), from)
    ensures v.DirsBase(false, from) == TreeStart(Dirs(v.nodes), false) + from.dirs
    ensures v.DirsBase(true, from) == TreeStart(Dirs(v.nodes), true) + from.dirs + from.dirsJoliet
    ensures v.FilesBase(from) == FsSectors(Dirs(v.nodes), from) + from.files
  {
    hide Sized, LevelsOk, RelStart, TableLen, FilesBefore, Sectors;
    NothingWraps(v, from);
  }

  lemma TablesLength(v: Volume)
    requires Sized(v)
    ensures var ds, n := Dirs(v.nodes), Min(|v.nodes|, 65536);
      |TablesBytes(v)| == 2048 * (2 * Sectors(TableLen(ds, false, n)) + 2 * Sectors(TableLen(ds, true, n)))
  {
    hide Sized, TableLen, Padded, Sectors;
    TableSizes(v, false, false);
    TableSizes(v, false, true);
    TableSizes(v, true, false);
    TableSizes(v, true, true);
    SectorsOfPadded(v.tableL);
    SectorsOfPadded(v.tableM);
    SectorsOfPadded(v.tableJolietL);
    SectorsOfPadded(v.tableJolietM);
  }

  lemma FsLength(v: Volume, labels: Labels, from: Counters)
    requires Sized(v) && Rooted(v)
    ensures |Head(v, labels, from) + TablesBytes(v)| == 2048 * TreeStart(Dirs(v.nodes), false)
    ensures |Head(v, labels, from) + TablesBytes(v) + Concat(v.content, |v.content|)| == 2048 * TreeStart(Dirs(v.nodes), true)
    ensures |Written(v, labels, from)| == 2048 * FsSectors(Dirs(v.nodes))
    ensures |FsBytes(v, labels, from)| == 2048 * FsSectors(Dirs(v.nodes), from)
    ensures |Image(v, labels, from)| == 2048 * TotalSectors(Dirs(v.nodes), from)
  {
    hide Sized, LevelsOk, RelStart, TableLen, FilesBefore, Sectors, Head, TablesBytes, Concat, FileArea, PadSectors;
    TablesLength(v);
    TreeLength(v, false, |v.nodes|);
    TreeLength(v, true, |v.nodes|);
  }

  /** What follows the Joliet directories. */
  function Rest(v: Volume, from: Counters): seq<Byte>
    requires LevelsOk(Dirs(v.nodes))
  {
    var ds := Dirs(v.nodes);
    Zeros(from.Slack()) + Zeros(from.Gap()) + FileArea(ds, |ds|) + Zeros(PadSectors(VolumeSectors(ds, from)) * 2048)
  }

  lemma ImageParts(v: Volume, labels: Labels, from: Counters)
    requires Rooted(v)
    ensures var front, iso, jol := Head(v, labels, from) + TablesBytes(v), Concat(v.content, |v.content|), Concat(v.contentJoliet, |v.contentJoliet|);
      Image(v, labels, from) == (front + iso) + jol + Rest(v, from) == front + iso + (jol + Rest(v, from))
  {
    hide LevelsOk, FileArea, Head, TablesBytes, Concat, VolumeSectors, PadSectors;
  }

  /** Directory `e` of a tree lies in the image `RelStart` sectors behind the first sector of the tree, whatever its records say. */
  lemma DirAt(v: Volume, labels: Labels, from: Counters, joliet: bool, e: nat)
    requires Sized(v) && Rooted(v) && e < |v.nodes|
    ensures var p := 2048 * (TreeStart(Dirs(v.nodes), joliet) + RelStart(Dirs(v.nodes), joliet, e));
      && e < |v.Content(joliet)| && p + |v.Content(joliet)[e]| <= |Written(v, labels, from)| <= |Image(v, labels, from)|
      && Image(v, labels, from)[p..p + |v.Content(joliet)[e]|] == v.Content(joliet)[e]
  {
    hide Sized, LevelsOk, RelStart, TreeStart, Image, Head, TablesBytes, Concat, FsSectors, Rest, DirSize;
    var front, iso, jol := Head(v, labels, from) + TablesBytes(v), Concat(v.content, |v.content|), Concat(v.contentJoliet, |v.contentJoliet|);
    var rest := Rest(v, from);
    ImageParts(v, labels, from);
    FsLength(v, labels, from);
    TreeLength(v, joliet, e);
    var q := |Concat(v.Content(joliet), e)|;
    ConcatAt(v.Content(joliet), |v.Content(joliet)|, e);
    if joliet {
      MiddleSlice(front + iso, jol, rest, q, q + |v.Content(joliet)[e]|);
    } else {
      MiddleSlice(front, iso, jol + rest, q, q + |v.Content(joliet)[e]|);
    }
  }

  /** Every file lies in the image, whole, from the sector its records start at. */
  lemma FileInImage(v: Volume, labels: Labels, from: Counters, d: nat, f: nat)
    requires Sized(v) && Rooted(v) && d < |v.nodes| && f < |v.nodes[d].dir.files|
    ensures var ds := Dirs(v.nodes);
      var p, s := 2048 * (FsSectors(ds, from) + from.files + FilesBefore(ds, d) + FilesSectors(ds[d].files, f)), Padded(ds[d].files[f].data);
      p + |s| <= |Image(v, labels, from)| && Image(v, labels, from)[p..p + |s|] == s
  {
    hide Sized, LevelsOk, FileArea, FsBytes, FsSectors, VolumeSectors, Padded, FilesBefore, FilesSectors, PadSectors, TotalSectors, TreeStart, RoundUp;
    var ds := Dirs(v.nodes);
    FsLength(v, labels, from);
    FileAt(ds, d, f);
    var q, s := 2048 * (FilesBefore(ds, d) + FilesSectors(ds[d].files, f)), Padded(ds[d].files[f].data);
    var fs, area, pad := FsBytes(v, labels, from) + Zeros(from.Gap()), FileArea(ds, |ds|), Zeros(PadSectors(VolumeSectors(ds, from)) * 2048);
    assert Image(v, labels, from) == fs + area + pad;
    MiddleSlice(fs, area, pad, q, q + |s|);
  }
}
