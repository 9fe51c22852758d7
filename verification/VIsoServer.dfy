/** `VIsoFile::generate` and `VIsoFile::open`: from a folder tree to a served image. */
module VIsoServer {
  import opened Bytes
  import opened DirRecords
  import opened FolderTree
  import opened DirList
  import opened DirContent
  import opened VIso
  import opened VIsoImage
  import opened VIsoTables
  import opened VIsoWrite
  import opened Disk
  import opened VIsoRead
  import IsoReader

  // ---------------------------------------------------------------- the image seen file by file

  function FileLists(nodes: seq<Node>): (dirs: seq<seq<FileNode>>)
    ensures |dirs| == |nodes| && forall d :: 0 <= d < |nodes| ==> dirs[d] == nodes[d].files
  {
    seq(|nodes|, d requires 0 <= d < |nodes| => nodes[d].files)
  }

  lemma {:induction false} ListBytesIs(nodes: seq<Node>, base: U32, d: nat, f: nat)
    requires FilesPlaced(nodes, base) && d < |nodes| && f <= |nodes[d].dir.files|
    ensures |nodes[d].files| == |nodes[d].dir.files| && ListBytes(nodes[d].files, f) == 2048 * FilesSectors(nodes[d].dir.files, f)
  {
    hide FileLba;
    assert nodes[d].files == FileNodes(Dirs(nodes), base, d);
    if f > 0 {
      ListBytesIs(nodes, base, d, f - 1);
    }
  }

  lemma {:induction false} AreaBytesIs(nodes: seq<Node>, base: U32, d: nat)
    requires FilesPlaced(nodes, base) && d <= |nodes|
    ensures AreaBytes(FileLists(nodes), d) == 2048 * FilesBefore(Dirs(nodes), d)
  {
    hide FilesPlaced, FilesSectors, ListBytes;
    if d > 0 {
      AreaBytesIs(nodes, base, d - 1);
      ListBytesIs(nodes, base, d - 1, |nodes[d - 1].dir.files|);
    }
  }

  lemma RlbaExact(nodes: seq<Node>, base: U32, d: nat, f: nat)
    requires FilesPlaced(nodes, base) && d < |nodes| && f < |nodes[d].dir.files|
    requires base + FilesBefore(Dirs(nodes), |nodes|) < 0x1_0000_0000
    ensures |nodes[d].files| == |nodes[d].dir.files| && nodes[d].files[f].file == nodes[d].dir.files[f]
    ensures nodes[d].files[f].rlba == base + FilesBefore(Dirs(nodes), d) + FilesSectors(nodes[d].dir.files, f)
  {
    hide FilesBefore, FilesSectors, Wrap32, FileLba, Sectors;
    var ds := Dirs(nodes);
    IsoReader.FilesWithin(ds, d, f);
    FileLbaIs(ds, base, d, f);
    Wrap32Same(base + FilesBefore(ds, d) + FilesSectors(ds[d].files, f));
    assert nodes[d].files == FileNodes(ds, base, d);
  }

  /** Sizes of the served image in bytes. */
  ghost predicate SizesOf(g: Geometry, ds: seq<Dir>, from: Counters)
    requires LevelsOk(ds)
  {
    && g.fsBufSize == 2048 * FsSectors(ds, from) && g.padAreaStart == 2048 * VolumeSectors(ds, from)
    && g.totalSize == 2048 * TotalSectors(ds, from) && g.padAreaSize == 2048 * PadSectors(VolumeSectors(ds, from))
  }

  lemma FileIsServed(v: Volume, labels: Labels, from: Counters, g: Geometry, d: nat, f: nat)
    requires Sized(v) && Rooted(v) && FilesPlaced(v.nodes, from.files) && SectorsFit(Dirs(v.nodes), from) && SizesOf(g, Dirs(v.nodes), from)
    requires d < |v.nodes| && f < |v.nodes[d].files|
    ensures FileServed(Image(v, labels, from), FileLists(v.nodes), g.fsBufSize, from.Gap(), d, f)
  {
    hide Sized, Rooted, LevelsOk, FilesPlaced, FsSectors, FilesBefore, FilesSectors, Image, AreaBytes, ListBytes, TotalSectors, PadSectors;
    ListBytesIs(v.nodes, from.files, d, 0);
    ListBytesIs(v.nodes, from.files, d, f);
    AreaBytesIs(v.nodes, from.files, d);
    RlbaExact(v.nodes, from.files, d, f);
    FileInImage(v, labels, from, d, f);
  }

  lemma PadIsZero(v: Volume, labels: Labels, from: Counters, k: nat)
    requires Sized(v) && Rooted(v) && 2048 * VolumeSectors(Dirs(v.nodes), from) <= k < |Image(v, labels, from)|
    ensures Image(v, labels, from)[k] == 0
  {
    hide Sized, LevelsOk, FsBytes, FsSectors, FilesBefore, PadSectors, TreeStart;
    FsLength(v, labels, from);
    var ds := Dirs(v.nodes);
    var front, pad := FsBytes(v, labels, from) + Zeros(from.Gap()) + FileArea(ds, |ds|), Zeros(PadSectors(VolumeSectors(ds, from)) * 2048);
    assert Image(v, labels, from) == front + pad;
    assert Image(v, labels, from)[k] == pad[k - |front|];
  }

  /** What the reader relies on holds of every finished volume. */
  lemma VolumeServes(v: Volume, labels: Labels, root: Dir, from: Counters, g: Geometry)
    requires VolumeOk(v, root, from) && LevelsOk(Dirs(v.nodes)) && SectorsFit(Dirs(v.nodes), from) && SizesOf(g, Dirs(v.nodes), from)
    ensures Sized(v) && Rooted(v) && Serves(Image(v, labels, from), FileLists(v.nodes), g, from.Gap())
  {
    hide VolumeOk, LevelsOk, Sized, Rooted, Image, Ready, FilesPlaced, VolumeSectors, TotalSectors, FileServed, AreaBytes, PadSectors, SizesOf;
    VolumeSized(v, root, from);
    SizedRoots(v);
    VolumeReady(v, root, from);
    ImageServes(v, labels, from, g);
  }

  lemma AllServed(v: Volume, labels: Labels, from: Counters, g: Geometry)
    requires Sized(v) && Rooted(v) && FilesPlaced(v.nodes, from.files) && SectorsFit(Dirs(v.nodes), from) && SizesOf(g, Dirs(v.nodes), from)
    ensures var dirs := FileLists(v.nodes); forall d, f :: 0 <= d < |dirs| && 0 <= f < |dirs[d]| ==>
      FileServed(Image(v, labels, from), dirs, g.fsBufSize, from.Gap(), d, f)
  {
    hide LevelsOk, Sized, Rooted, Image, FilesPlaced, VolumeSectors, TotalSectors, FileServed, SizesOf, SectorsFit;
    var dirs := FileLists(v.nodes);
    forall d, f | 0 <= d < |dirs| && 0 <= f < |dirs[d]| ensures FileServed(Image(v, labels, from), dirs, g.fsBufSize, from.Gap(), d, f) {
      FileIsServed(v, labels, from, g, d, f);
    }
  }

  lemma ImageServes(v: Volume, labels: Labels, from: Counters, g: Geometry)
    requires Sized(v) && Rooted(v) && LevelsOk(Dirs(v.nodes)) && FilesPlaced(v.nodes, from.files) && SectorsFit(Dirs(v.nodes), from) && SizesOf(g, Dirs(v.nodes), from)
    ensures Serves(Image(v, labels, from), FileLists(v.nodes), g, from.Gap())
  {
    hide LevelsOk, Sized, Rooted, Image, FilesPlaced, VolumeSectors, TotalSectors, FileServed, AreaBytes, PadSectors, SizesOf, SectorsFit;
    assert |Image(v, labels, from)| == 2048 * TotalSectors(Dirs(v.nodes), from) by { FsLength(v, labels, from); }
    GeometryAdds(v.nodes, from, g);
    AllServed(v, labels, from, g);
    forall k | g.padAreaStart <= k < |Image(v, labels, from)| ensures Image(v, labels, from)[k] == 0 {
      PadIsZero(v, labels, from, k);
    }
  }

  lemma GeometryAdds(nodes: seq<Node>, from: Counters, g: Geometry)
    requires LevelsOk(Dirs(nodes)) && FilesPlaced(nodes, from.files) && SizesOf(g, Dirs(nodes), from)
    ensures g.padAreaStart + g.padAreaSize == g.totalSize == 2048 * TotalSectors(Dirs(nodes), from)
    ensures g.padAreaStart == g.fsBufSize + from.Gap() + AreaBytes(FileLists(nodes), |nodes|) == 2048 * VolumeSectors(Dirs(nodes), from)
    ensures g.fsBufSize % 2048 == 0
  {
    hide LevelsOk, FilesPlaced, FsSectors, AreaBytes, FilesBefore, PadSectors;
    AreaBytesIs(nodes, from.files, |nodes|);
  }

  // ---------------------------------------------------------------- generate

  /** The sector counts `generate` adds up are the exact ones. */
  lemma GeneratedSizes(v: Volume, from: Counters)
    requires Sized(v) && LevelsOk(Dirs(v.nodes)) && SectorsFit(Dirs(v.nodes), from)
    ensures var ds := Dirs(v.nodes);
      && 20 + BytesToSectors(|v.tableL|) as int * 2 + BytesToSectors(|v.tableJolietL|) as int * 2
         + Wrap32(from.dirs + RelStart(ds, false, |ds|)) as int + Wrap32(from.dirsJoliet + RelStart(ds, true, |ds|)) as int == FsSectors(ds, from)
      && Wrap32(from.files + FilesBefore(ds, |ds|)) == from.files + FilesBefore(ds, |ds|)
  {
    hide Sized, LevelsOk, RelStart, FilesBefore, TableLen, Wrap32, Sectors;
    var ds := Dirs(v.nodes);
    TableSizes(v, false, false);
    TableSizes(v, true, false);
    Wrap32Same(Sectors(|v.tableL|));
    Wrap32Same(Sectors(|v.tableJolietL|));
    Wrap32Same(from.dirs + RelStart(ds, false, |ds|));
    Wrap32Same(from.dirsJoliet + RelStart(ds, true, |ds|));
    Wrap32Same(from.files + FilesBefore(ds, |ds|));
  }

  /** Sectors of metadata, from the sizes of two tables and the counts of the builder. */
  method CountSectors(tableSize: nat, tableSizeJoliet: nat, counts: Counters, ghost v: Volume, ghost from: Counters) returns (fsSectors: nat)
    requires Sized(v) && LevelsOk(Dirs(v.nodes)) && SectorsFit(Dirs(v.nodes), from)
    requires tableSize == |v.tableL| && tableSizeJoliet == |v.tableJolietL| && counts == AllBuilt(Dirs(v.nodes), from)
    ensures fsSectors == FsSectors(Dirs(v.nodes), from) && counts.files == from.files + FilesBefore(Dirs(v.nodes), |v.nodes|)
  {
    hide Sized, LevelsOk, FsSectors, SectorsFit, FilesBefore, RelStart, Wrap32;
    GeneratedSizes(v, from);
    fsSectors := 20 + BytesToSectors(tableSize) as int * 2 + BytesToSectors(tableSizeJoliet) as int * 2
                 + counts.dirs as int + counts.dirsJoliet as int;
  }

  /** The layout that follows from the sector counts; `volumeSize` includes the padding. */
  method Measure(fsSectors: nat, filesSizeSectors: U32, ghost ds: seq<Dir>, ghost from: Counters) returns (g: Geometry, volumeSize: U32)
    requires LevelsOk(ds) && SectorsFit(ds, from) && fsSectors == FsSectors(ds, from) && filesSizeSectors == from.files + FilesBefore(ds, |ds|)
    ensures SizesOf(g, ds, from) && volumeSize == TotalSectors(ds, from) == Wrap32(TotalSectors(ds, from))
  {
    hide LevelsOk, FsSectors, FilesBefore;
    PadBounds(VolumeSectors(ds, from));
    volumeSize := Wrap32(fsSectors + filesSizeSectors);
    var padAreaStart := volumeSize as int * 2048;
    var padSectors := 0x20 + if volumeSize % 0x20 != 0 then 0x20 - volumeSize % 0x20 else 0;
    volumeSize := Wrap32(volumeSize + padSectors);
    g := Geometry(fsSectors * 2048, padAreaStart, padSectors as int * 2048, volumeSize as int * 2048);
  }

  /** A cleared buffer of the given size, with the metadata written into it. */
  method Buffer(fsBufSize: nat, list: seq<Node>, p: Buffers, labels: Labels, volumeSize: U32, ghost from: Counters) returns (fsBuf: array<Byte>)
    requires Rooted(VolumeOf(list, p)) && volumeSize == Wrap32(TotalSectors(Dirs(list), from))
    requires fsBufSize == |FsBytes(VolumeOf(list, p), labels, from)|
    ensures fresh(fsBuf) && Rooted(VolumeOf(list, p)) && fsBuf[..] == FsBytes(VolumeOf(list, p), labels, from)
  {
    hide LevelsOk, TotalSectors, FsBytes, Rooted, Wrap32;
    ghost var v := VolumeOf(list, p);
    fsBuf := new Byte[fsBufSize](_ => 0);
    assert VolumeOf(list, p) == v;
    Write(fsBuf, list, p, labels, volumeSize, from);
  }

  /** Sizes the image of a built volume and writes its metadata. */
  method Emit(list: seq<Node>, ghost root: Dir, p: Buffers, labels: Labels, counts: Counters, ghost from: Counters)
    returns (fsBuf: array<Byte>, g: Geometry)
    requires VolumeOk(VolumeOf(list, p), root, from) && LevelsOk(Dirs(list)) && SectorsFit(Dirs(list), from)
    requires counts == AllBuilt(Dirs(list), from)
    ensures fresh(fsBuf) && SizesOf(g, Dirs(list), from)
    ensures Rooted(VolumeOf(list, p)) && fsBuf[..] == FsBytes(VolumeOf(list, p), labels, from)
  {
    hide VolumeOk, LevelsOk, TotalSectors, FsSectors, SectorsFit, FsBytes, Rooted, Sized, AllBuilt, Wrap32, SizesOf, FilesBefore;
    ghost var v := VolumeOf(list, p);
    VolumeSized(v, root, from);
    SizedRoots(v);
    FsLength(v, labels, from);
    var fsSectors := CountSectors(p.tableL.Length, p.tableJolietL.Length, counts, v, from);
    var volumeSize;
    g, volumeSize := Measure(fsSectors, counts.files, Dirs(list), from);
    FsBufSizeIs(g, Dirs(list), from);
    fsBuf := Buffer(g.fsBufSize, list, p, labels, volumeSize, from);
  }

  /** `generate`: build the volume, size the image, and write the metadata. */
  method Generate(root: Dir, labels: Labels, from: Counters)
    returns (list: seq<Node>, result: Option<(array<Byte>, Geometry)>, to: Counters, ghost v: Volume)
    requires TreeOk(root) && LevelsOk(BreadthFirst(root)) && SectorsFit(BreadthFirst(root), from)
    ensures v.nodes == list && LevelsOk(Dirs(list)) && Dirs(list) == BreadthFirst(root)
    ensures to == CountersAfter(list, from)
    ensures result.Some? <==> FitsScratch(list, false) && FitsScratch(list, true)
    ensures result.Some? ==> VolumeOk(v, root, from) && Rooted(v) && fresh(result.value.0) && SizesOf(result.value.1, Dirs(list), from)
    ensures result.Some? ==> result.value.0[..] == FsBytes(v, labels, from)
  {
    hide VolumeOk, LevelsOk, SectorsFit, FitsScratch, FsBytes, TreeOk, Ready, Rooted, SizesOf, CountersAfter, AllBuilt;
    var tempBuf := new Byte[TEMP_BUF_SIZE](_ => 0);
    var built;
    list, built, to := Build(tempBuf, root, from);
    if built.None? {
      v := Volume(list, [], [], [], [], [], []);
      return list, None, to, v;
    }
    v := VolumeOf(list, built.value);
    AllCounted(list, from);
    var fsBuf, g := Emit(list, root, built.value, labels, to, from);
    assert VolumeOf(list, built.value) == v;
    result := Some((fsBuf, g));
  }

  lemma FsBufSizeIs(g: Geometry, ds: seq<Dir>, from: Counters)
    requires LevelsOk(ds) && SizesOf(g, ds, from)
    ensures g.fsBufSize == 2048 * FsSectors(ds, from)
  {
    hide LevelsOk, FsSectors, TotalSectors, VolumeSectors;
  }

  lemma ImageFront(v: Volume, labels: Labels, from: Counters)
    requires Rooted(v)
    ensures |FsBytes(v, labels, from)| <= |Image(v, labels, from)|
    ensures FsBytes(v, labels, from) == Image(v, labels, from)[..|FsBytes(v, labels, from)|]
  {
    hide FsBytes, FileArea, LevelsOk, PadSectors, VolumeSectors;
  }

  // ---------------------------------------------------------------- open

  /**
   The image is right: either descriptor names the sector where the root directory of its tree
   lies (`DirAt`), and no read ends early (`GapShows`).
   */
  ghost predicate Right(v: Volume, image: seq<Byte>, gap: nat)
    requires LevelsOk(Dirs(v.nodes)) && |image| >= 20 * 2048
  {
    gap == 0 && forall joliet :: IsoReader.RootExtent(image, joliet).start == TreeStart(Dirs(v.nodes), joliet)
  }

  /** What was counted before `build` began puts the records of a tree off by as many sectors, those of Joliet by both counts. */
  lemma RootShift(v: Volume, labels: Labels, root: Dir, from: Counters, joliet: bool)
    requires VolumeOk(v, root, from) && LevelsOk(Dirs(v.nodes)) && SectorsFit(Dirs(v.nodes), from)
    ensures Rooted(v) && |Image(v, labels, from)| >= 20 * 2048
    ensures IsoReader.RootExtent(Image(v, labels, from), joliet).start
         == TreeStart(Dirs(v.nodes), joliet) + from.dirs + if joliet then from.dirsJoliet else 0
  {
    hide VolumeOk, LevelsOk, Sized, Rooted, Image, TreeStart, SectorsFit, IsoReader.ExtentOf, IsoReader.RootExtent, Ready, FilesPlaced;
    VolumeSized(v, root, from);
    SizedRoots(v);
    VolumeReady(v, root, from);
    IsoReader.RootIs(v, labels, root, from, joliet);
    BasesAre(v, from);
    RootStart(v, joliet, from);
  }

  lemma RootStart(v: Volume, joliet: bool, from: Counters)
    requires LevelsOk(Dirs(v.nodes)) && |v.nodes| > 0
    ensures IsoReader.ExtentOf(v, joliet, 0, from).start == v.DirsBase(joliet, from)
  {
    hide LevelsOk, Wrap32, DirSize;
    RelStartZero(Dirs(v.nodes), joliet, v.DirsBase(joliet, from));
  }

  /** The image of a built volume is right if and only if `build` began with all counts at 0. */
  lemma RightWhenFresh(v: Volume, labels: Labels, root: Dir, from: Counters)
    requires VolumeOk(v, root, from) && LevelsOk(Dirs(v.nodes)) && SectorsFit(Dirs(v.nodes), from)
    ensures Rooted(v) && |Image(v, labels, from)| >= 20 * 2048
    ensures Right(v, Image(v, labels, from), from.Gap()) <==> from == FRESH
  {
    hide VolumeOk, LevelsOk, Rooted, Image, TreeStart, SectorsFit, IsoReader.RootExtent;
    RootShift(v, labels, root, from, false);
    RootShift(v, labels, root, from, true);
  }

  /**
   `open` on a folder, for either class. What was served before is closed, with its cached
   descriptor; if nothing was, the object is left as it is, counts included. Afterwards it serves
   the image of the folder, or nothing when a buffer was too small. The image is right if and only
   if something was served before or the counts were all 0.
   */
  method Open(viso: VIsoFile, root: Dir, labels: Labels) returns (ok: bool, ghost v: Volume)
    requires viso.Valid() && TreeOk(root) && LevelsOk(BreadthFirst(root)) && SectorsFit(BreadthFirst(root), viso.From())
    modifies viso, viso.host
    ensures viso.Valid() && ok == viso.generated && viso.lastPath == None && viso.vFilePtr == 0
    ensures viso.host.open - {0} == old(viso.Foreign()) - {0}
    ensures old(viso.ZeroTaken()) ==> viso.host.open == old(viso.Foreign())
    ensures LevelsOk(Dirs(v.nodes)) && Dirs(v.nodes) == BreadthFirst(root)
    ensures viso.counts == CountersAfter(v.nodes, old(viso.From()))
    ensures ok <==> FitsScratch(v.nodes, false) && FitsScratch(v.nodes, true)
    ensures ok ==> VolumeOk(v, root, old(viso.From())) && Rooted(v) && viso.image == Image(v, labels, old(viso.From()))
    ensures ok ==> |viso.image| >= 20 * 2048 && (Right(v, viso.image, viso.gap) <==> old(viso.From()) == FRESH)
  {
    hide VolumeOk, LevelsOk, Serves, SectorsFit, FitsScratch, Image, TreeOk, Rooted, SizesOf, FsBytes, Right, CountersAfter;
    viso.CloseServed();
    ghost var from := viso.counts;
    var list, result, to;
    list, result, to, v := Generate(root, labels, viso.counts);
    viso.counts := to;
    ok := result.Some?;
    if ok {
      var (fsBuf, g) := result.value;
      VolumeServes(v, labels, root, from, g);
      FsLength(v, labels, from);
      FsBufSizeIs(g, Dirs(list), from);
      ImageFront(v, labels, from);
      RightWhenFresh(v, labels, root, from);
      viso.Load(FileLists(list), fsBuf, g, Image(v, labels, from), from.Gap());
    }
  }

  /**
   What the server promises, which opens every object once: from an opened volume, which `Read`
   serves without a gap, every file of the folder can be had by name, as `Spelling` has it.
   */
  method OpenVolume(viso: VIsoFile, root: Dir, labels: Labels) returns (ok: bool)
    requires viso.Valid() && TreeOk(root) && LevelsOk(BreadthFirst(root)) && SectorsFit(BreadthFirst(root), viso.From())
    modifies viso, viso.host
    ensures viso.Valid() && ok == viso.generated && viso.lastPath == None && viso.vFilePtr == 0
    ensures ok && old(viso.From()) == FRESH ==>
              && viso.gap == 0
              && forall joliet, path, ids :: IsoReader.PathIn(root, path) && IsoReader.PathSpelled(root, path, joliet, ids) ==>
                IsoReader.Reaches(viso.image, root, joliet, path, ids)
  {
    hide VolumeOk, LevelsOk, SectorsFit, FitsScratch, Image, TreeOk, Rooted, IsoReader.Reaches, IsoReader.PathIn, IsoReader.PathSpelled, CountersAfter, IsoReader.RootExtent;
    ghost var v;
    ghost var from := viso.From();
    ok, v := Open(viso, root, labels);
    if ok && from == FRESH {
      forall joliet, path, ids | IsoReader.PathIn(root, path) && IsoReader.PathSpelled(root, path, joliet, ids)
        ensures IsoReader.Reaches(viso.image, root, joliet, path, ids)
      {
        IsoReader.EndToEnd(v, labels, root, joliet, path, ids);
      }
    }
  }

  /**
   The served image is as long as its parts, a whole number of 32-sector blocks, and at least
   32 and at most 63 of its sectors are padding.
   */
  lemma ServedSize(v: Volume, labels: Labels, root: Dir)
    requires VolumeOk(v, root) && LevelsOk(Dirs(v.nodes)) && Rooted(v)
    ensures |Image(v, labels)| % (32 * 2048) == 0
    ensures 32 * 2048 <= |Image(v, labels)| - 2048 * VolumeSectors(Dirs(v.nodes)) <= 63 * 2048
  {
    hide VolumeOk, LevelsOk, VolumeSectors, Image, PadSectors, Sized, Rooted;
    VolumeSized(v, root, FRESH);
    FsLength(v, labels, FRESH);
    Blocks(VolumeSectors(Dirs(v.nodes)), |Image(v, labels)|);
  }

  lemma Blocks(volumeSize: nat, len: nat)
    requires len == 2048 * (volumeSize + PadSectors(volumeSize))
    ensures len % (32 * 2048) == 0 && 32 * 2048 <= len - 2048 * volumeSize <= 63 * 2048
  {
    PadBounds(volumeSize);
    var n := volumeSize + PadSectors(volumeSize);
    assert 2048 * n == 32 * 2048 * (n / 32);
  }
}
